/**
 mjson_find on a tree (libs/mjson.c): the automaton of the callback without the text, as one pass over what stands at
 which depth.
 */
module MjsonMarks {
  import opened MjsonText
  import opened MjsonScanner
  import opened MjsonFind
  import opened MjsonPath

  // ----- The marks of a tree ------------------------------------------------------------------------------

  /** What the callback looks at, with the number of brackets open then: a value, an array, a comma, a key. */
  datatype Mark =
    | Holds(depth: nat, value: Hit)
    | Opens(depth: nat)
    | Comma(depth: nat)
    | Names(depth: nat, key: string)

  function TokOf(v: Json): int {
    match v case Lit(tok, _) => tok case Node(isObject, _, _) => Open(isObject) as int
  }

  /** The value `v` printed at `at`, as it is found. */
  function Here(v: Json, at: nat): Hit {
    Found(TokOf(v), at, |Text(v)|)
  }

  /** The marks of `v`, printed at `at` inside `depth` brackets, in the order of the text. */
  function Marks(v: Json, at: nat, depth: nat): seq<Mark>
    decreases v
  {
    match v
    case Lit(_, _) => [Holds(depth, Here(v, at))]
    case Node(isObject, entries, _) =>
      [Holds(depth, Here(v, at))] + (Opening(isObject, depth + 1)
          + InnerMarks(isObject, entries, true, at + 1, depth + 1))
  }

  function Opening(isObject: bool, depth: nat): seq<Mark> {
    if isObject then [] else [Opens(depth)]
  }

  function CommaMarks(first: bool, depth: nat): seq<Mark> {
    if first then [] else [Comma(depth)]
  }

  function KeyMarks(isObject: bool, key: string, depth: nat): seq<Mark> {
    if isObject then [Names(depth, key)] else []
  }

  function LeadMarks(isObject: bool, first: bool, key: string, depth: nat): seq<Mark> {
    CommaMarks(first, depth) + KeyMarks(isObject, key, depth)
  }

  function InnerMarks(isObject: bool, es: Entries, first: bool, at: nat, depth: nat): seq<Mark>
    decreases es
  {
    if es == Nil then []
    else
      var value := at + |Lead(isObject, first, es)|;
      LeadMarks(isObject, first, es.key, depth)
      + (Marks(es.value, value, depth) + InnerMarks(isObject, es.rest, false, value + |Text(es.value)|, depth))
  }

  // ----- The pass over the marks --------------------------------------------------------------------------

  /**
   How a pass ends: still searching, with `j` parts of the path matched and `count` commas counted in search of an
   index, or stopped without or with a value.
   */
  datatype Course = Seeking(j: nat, count: nat) | GivenUp | Arrived(value: Hit)

  /** No array has been entered in search of part `j`: a count that no comma makes equal to the index. */
  function Fresh(j: nat, parts: seq<Part>): nat {
    if j < |parts| && parts[j].Index? then parts[j].n else 0
  }

  function Track(ms: seq<Mark>, j: nat, count: nat, parts: seq<Part>): (r: Course)
    requires j <= |parts|
    ensures r.Seeking? ==> j <= r.j <= |parts|
    decreases |ms|
  {
    if ms == [] then Seeking(j, count)
    else match TrackOne(ms[0], j, count, parts)
      case Seeking(j', count') => Track(ms[1..], j', count', parts)
      case stopped => stopped
  }

  /**
   One mark. All parts matched, the next value one bracket deeper for each is the one looked for. A name is matched by
   that key one deeper than the parts matched so far; index 0 by an array that opens there, and a larger index by the
   comma there that makes the count equal to it. A key as deep as the parts matched ends the search.
   */
  function TrackOne(m: Mark, j: nat, count: nat, parts: seq<Part>): (r: Course)
    requires j <= |parts|
    ensures r.Seeking? ==> j <= r.j <= |parts|
  {
    match m
    case Holds(depth, value) => if j == |parts| == depth then Arrived(value) else Seeking(j, count)
    case Opens(depth) =>
      if j < |parts| && parts[j].Index? && depth == j + 1 then
        if parts[j].n == 0 then Seeking(j + 1, Fresh(j + 1, parts)) else Seeking(j, 0)
      else Seeking(j, count)
    case Comma(depth) =>
      if j < |parts| && parts[j].Index? && depth == j + 1 && count < parts[j].n then
        if count + 1 == parts[j].n then Seeking(j + 1, Fresh(j + 1, parts)) else Seeking(j, count + 1)
      else Seeking(j, count)
    case Names(depth, key) =>
      if j < |parts| && parts[j] == Name(key) && depth == j + 1 then Seeking(j + 1, Fresh(j + 1, parts))
      else if depth == j then GivenUp
      else Seeking(j, count)
  }

  lemma {:induction false} TrackAppend(a: seq<Mark>, b: seq<Mark>, j: nat, count: nat, parts: seq<Part>)
    requires j <= |parts|
    ensures var r := Track(a, j, count, parts);
            Track(a + b, j, count, parts) == if r.Seeking? then Track(b, r.j, r.count, parts) else r
    decreases |a|
  {
    hide TrackOne;
    if a == [] {
      assert a + b == b;
    } else {
      assert (a + b)[1..] == a[1..] + b;
      var r := TrackOne(a[0], j, count, parts);
      if r.Seeking? { TrackAppend(a[1..], b, r.j, r.count, parts); }
    }
  }

  lemma TrackSingle(m: Mark, j: nat, count: nat, parts: seq<Part>)
    requires j <= |parts|
    ensures Track([m], j, count, parts) == TrackOne(m, j, count, parts)
  {
    hide TrackOne;
  }

  lemma TrackNone(j: nat, count: nat, parts: seq<Part>)
    requires j <= |parts|
    ensures Track([], j, count, parts) == Seeking(j, count)
  {}

  // ----- The automaton follows the marks ------------------------------------------------------------------

  /** The indices kept: the count while it is below the index looked for, and else nothing that a comma could match. */
  predicate Counts(d: Data, j: nat, count: nat, parts: seq<Part>) {
    if j < |parts| && parts[j].Index? && count < parts[j].n then d.i1 == count && d.i2 == parts[j].n else d.i1 >= d.i2
  }

  /** The data inside `depth` brackets with `j` parts of the path matched and nothing found. */
  predicate Seeks(d: Data, parts: seq<Part>, j: nat, count: nat, depth: int)
    requires j <= |parts|
  {
    d.get == Get(PosOf(parts, j), depth, j, -1, TOK_INVALID, 0, 0) && Counts(d, j, count, parts)
  }

  predicate Follows(fed: (Data, bool), parts: seq<Part>, r: Course, depth: int) {
    match r
    case Seeking(j, count) => !fed.1 && j <= |parts| && Seeks(fed.0, parts, j, count, depth)
    case GivenUp => fed.1 && fed.0.get.tok == TOK_INVALID
    case Arrived(value) => fed.1 && fed.0.get.tok != TOK_INVALID
                           && value == Found(fed.0.get.tok, fed.0.get.off, fed.0.get.len)
  }

  lemma EndsIff(parts: seq<Part>, j: nat)
    requires AreNamed(parts) && j <= |parts|
    ensures PathChar(PathTo(parts), PosOf(parts, j)) == NUL <==> j == |parts|
    ensures PathChar(PathTo(parts), PosOf(parts, j)) == '[' <==> j < |parts| && parts[j].Index?
  {
    hide PathTo, PosOf, PartLength;
    PathAt(parts, j);
  }

  lemma ObjectFollows(s: string, parts: seq<Part>, d: Data, j: nat, count: nat, depth: nat, off: nat)
    requires AreNamed(parts) && j <= |parts| && Seeks(d, parts, j, count, depth) && !(j == |parts| == depth)
    ensures Follows(Callback(s, PathTo(parts), d, Event('{' as int, off, 1)), parts, Seeking(j, count), depth + 1)
  {
    hide PathTo, PosOf, PathChar, KeyMatches;
    EndsIff(parts, j);
  }

  /** An array that opens elsewhere than in search of an index at this depth. */
  lemma ArrayFollows(s: string, parts: seq<Part>, d: Data, j: nat, count: nat, depth: nat, off: nat)
    requires AreNamed(parts) && j <= |parts| && Seeks(d, parts, j, count, depth) && !(j == |parts| == depth)
    requires !(j < |parts| && parts[j].Index? && depth == j)
    ensures Follows(Callback(s, PathTo(parts), d, Event('[' as int, off, 1)), parts, Seeking(j, count), depth + 1)
  {
    hide PathTo, PosOf, PathChar, KeyMatches;
    EndsIff(parts, j);
  }

  lemma IndexFollows(s: string, parts: seq<Part>, d: Data, j: nat, count: nat, off: nat)
    requires AreNamed(parts) && j < |parts| && parts[j].Index? && Seeks(d, parts, j, count, j)
    ensures Follows(Callback(s, PathTo(parts), d, Event('[' as int, off, 1)), parts,
                    if parts[j].n == 0 then Seeking(j + 1, Fresh(j + 1, parts)) else Seeking(j, 0), j + 1)
  {
    hide PathTo, PartLength, KeyMatches, IndexAt, IndexEnd;
    PathAt(parts, j);
  }

  lemma OpensFollows(s: string, parts: seq<Part>, isObject: bool, d: Data, j: nat, count: nat, depth: nat, off: nat)
    requires AreNamed(parts) && j <= |parts| && Seeks(d, parts, j, count, depth) && !(j == |parts| == depth)
    ensures Follows(Callback(s, PathTo(parts), d, Event(Open(isObject) as int, off, 1)), parts,
                    Track(Opening(isObject, depth + 1), j, count, parts), depth + 1)
  {
    hide Callback, Seeks, PathTo, Follows;
    if isObject {
      TrackNone(j, count, parts);
      ObjectFollows(s, parts, d, j, count, depth, off);
    } else {
      TrackSingle(Opens(depth + 1), j, count, parts);
      if j < |parts| && parts[j].Index? && depth == j {
        IndexFollows(s, parts, d, j, count, off);
      } else {
        ArrayFollows(s, parts, d, j, count, depth, off);
      }
    }
  }

  lemma ClosesFollows(s: string, parts: seq<Part>, isObject: bool, d: Data, j: nat, count: nat, depth: nat, off: nat)
    requires AreNamed(parts) && j <= |parts| && Seeks(d, parts, j, count, depth)
    ensures Follows(Callback(s, PathTo(parts), d, Event(Closing(isObject) as int, off, 1)), parts,
                    Seeking(j, count), depth - 1)
  {
    hide PathTo, PosOf, PathChar, KeyMatches;
  }

  lemma CommaFollows(s: string, parts: seq<Part>, d: Data, j: nat, count: nat, depth: nat, off: nat)
    requires AreNamed(parts) && j <= |parts| && Seeks(d, parts, j, count, depth)
    ensures Follows(Callback(s, PathTo(parts), d, Event(',' as int, off, 1)), parts,
                    Track([Comma(depth)], j, count, parts), depth)
  {
    hide PathTo, PartLength, PartText, KeyMatches, KeyCallback, IndexAt, IndexEnd, PosOf;
    PathAt(parts, j);
    if j < |parts| { NextPos(parts, j); }
    TrackSingle(Comma(depth), j, count, parts);
  }

  lemma NextPos(parts: seq<Part>, j: nat)
    requires j < |parts|
    ensures PosOf(parts, j + 1) == PosOf(parts, j) + |PartText(parts[j])|
  {}

  lemma ColonFollows(s: string, parts: seq<Part>, d: Data, j: nat, count: nat, depth: nat, off: nat)
    requires j <= |parts| && Seeks(d, parts, j, count, depth)
    ensures Follows(Callback(s, PathTo(parts), d, Event(':' as int, off, 1)), parts, Seeking(j, count), depth)
  {
    hide PathTo, PosOf, PathChar, KeyMatches;
  }

  lemma LitFollows(s: string, parts: seq<Part>, d: Data, j: nat, count: nat, depth: nat, e: Event)
    requires AreNamed(parts) && j <= |parts| && Seeks(d, parts, j, count, depth) && !(j == |parts| == depth)
    requires IsValueToken(e.tok)
    ensures Follows(Callback(s, PathTo(parts), d, e), parts, Seeking(j, count), depth)
  {
    hide PathTo, PosOf, PathChar, KeyMatches;
    EndsIff(parts, j);
  }

  lemma QuotedAt(s: string, at: nat, key: string)
    requires At(s, at, Quoted(key))
    ensures at + |key| + 2 <= |s| && s[at] == QUOTE && s[at + 1 + |key|] == QUOTE && s[at + 1..at + 1 + |key|] == key
  {
    var q := s[at..at + |key| + 2];
    assert q[1..1 + |key|] == key && q[0] == QUOTE && q[1 + |key|] == QUOTE;
  }

  /** The test for a key of the tree is a comparison with the name that is due. */
  lemma KeyMatchesIff(s: string, parts: seq<Part>, j: nat, key: string, at: nat)
    requires AreNamed(parts) && j <= |parts| && At(s, at, Quoted(key))
    ensures KeyMatches(s, PathTo(parts), PosOf(parts, j), Event(TOK_KEY, at, |key| + 2))
            <==> j < |parts| && parts[j] == Name(key)
  {
    hide PosOf, PathTo, PartLength;
    PathAt(parts, j);
    QuotedAt(s, at, key);
  }

  lemma NamesFollows(s: string, parts: seq<Part>, d: Data, j: nat, count: nat, depth: nat, key: string, at: nat)
    requires AreNamed(parts) && j <= |parts| && Seeks(d, parts, j, count, depth) && At(s, at, Quoted(key))
    ensures Follows(Callback(s, PathTo(parts), d, Event(TOK_KEY, at, |key| + 2)), parts,
                    Track([Names(depth, key)], j, count, parts), depth)
  {
    hide PathTo, KeyMatches, At, PosOf, PathChar;
    KeyMatchesIff(s, parts, j, key, at);
    TrackSingle(Names(depth, key), j, count, parts);
    if j < |parts| { NextPos(parts, j); }
  }

  // ----- The value looked for -----------------------------------------------------------------------------

  /** All of the path matched, and a bracket open that closes the value looked for, which begins at `obj`. */
  predicate Inside(d: Data, parts: seq<Part>, depth: int, obj: nat) {
    d.get == Get(PosOf(parts, |parts|), depth, |parts|, obj, TOK_INVALID, 0, 0) && d.i1 >= d.i2
  }

  predicate IsQuiet(tok: int) {
    tok == ',' as int || tok == ':' as int || tok == TOK_KEY || IsValueToken(tok)
  }

  lemma QuietEvent(s: string, parts: seq<Part>, d: Data, depth: nat, obj: nat, e: Event)
    requires AreNamed(parts) && depth > |parts| && Inside(d, parts, depth, obj)
    ensures var (d', stop) := Callback(s, PathTo(parts), d, e);
            && (e.tok == '{' as int || e.tok == '[' as int ==> !stop && Inside(d', parts, depth + 1, obj))
            && (IsQuiet(e.tok) ==> !stop && Inside(d', parts, depth, obj))
            && (e.tok == '}' as int || e.tok == ']' as int ==>
                  if depth - 1 > |parts| then !stop && Inside(d', parts, depth - 1, obj)
                  else stop && d'.get.tok == e.tok - 2 && d'.get.off == obj && d'.get.len == e.off - obj + 1)
  {
    hide PosOf, PathTo, PartLength;
    PathAt(parts, |parts|);
  }

  lemma {:induction false} FeedQuiet(s: string, parts: seq<Part>, d: Data, depth: nat, obj: nat, es: seq<Event>)
    requires AreNamed(parts) && depth > |parts| && Inside(d, parts, depth, obj)
    requires forall k :: 0 <= k < |es| ==> IsQuiet(es[k].tok)
    ensures var fed := Feed(s, PathTo(parts), d, es); !fed.1 && Inside(fed.0, parts, depth, obj)
    decreases |es|
  {
    hide Callback, PathTo, Inside;
    if es != [] {
      QuietEvent(s, parts, d, depth, obj, es[0]);
      FeedQuiet(s, parts, Callback(s, PathTo(parts), d, es[0]).0, depth, obj, es[1..]);
    }
  }

  lemma LeadIsQuiet(isObject: bool, first: bool, es: Entries, at: nat)
    requires es.Cons?
    ensures var lead := LeadEvents(isObject, first, es, at); forall k :: 0 <= k < |lead| ==> IsQuiet(lead[k].tok)
  {}

  /** Nothing inside the value looked for stops the automaton. */
  lemma {:induction false} ValueIsQuiet(s: string, parts: seq<Part>, d: Data, depth: nat, obj: nat, v: Json, at: nat)
    requires AreNamed(parts) && depth > |parts| && Valid(v) && Inside(d, parts, depth, obj)
    ensures var fed := Feed(s, PathTo(parts), d, Events(v, at)); !fed.1 && Inside(fed.0, parts, depth, obj)
    decreases v
  {
    hide Callback, PathTo, Inside, InnerEvents;
    match v
    case Lit(tok, text) =>
      QuietEvent(s, parts, d, depth, obj, Event(tok, at, |text|));
      FeedOne(s, PathTo(parts), d, Event(tok, at, |text|));
    case Node(isObject, entries, space) =>
      var e := Event(Open(isObject) as int, at, 1);
      QuietEvent(s, parts, d, depth, obj, e);
      FeedOne(s, PathTo(parts), d, e);
      FeedAppend(s, PathTo(parts), d, [e], InnerEvents(isObject, entries, true, space, at + 1));
      InnerIsQuiet(s, parts, Callback(s, PathTo(parts), d, e).0, depth + 1, obj, isObject, entries, true, space,
          at + 1);
  }

  /** Behind a closing bracket at `end`: all done if it closes the value looked for. */
  predicate Closed(fed: (Data, bool), parts: seq<Part>, depth: int, obj: nat, isObject: bool, end: int) {
    if depth - 1 > |parts| then !fed.1 && Inside(fed.0, parts, depth - 1, obj)
    else fed.1 && fed.0.get.tok == Open(isObject) as int && fed.0.get.off == obj && fed.0.get.len == end - obj + 1
  }

  lemma ClosingCloses(s: string, parts: seq<Part>, d: Data, depth: nat, obj: nat, isObject: bool, at: nat)
    requires AreNamed(parts) && depth > |parts| && Inside(d, parts, depth, obj)
    ensures Closed(Feed(s, PathTo(parts), d, [Event(Closing(isObject) as int, at, 1)]), parts, depth, obj, isObject, at)
  {
    hide Callback, PathTo, Inside;
    var e := Event(Closing(isObject) as int, at, 1);
    QuietEvent(s, parts, d, depth, obj, e);
    FeedOne(s, PathTo(parts), d, e);
  }

  /** The closing bracket of the value looked for completes the lookup. */
  lemma {:induction false} InnerIsQuiet(s: string, parts: seq<Part>, d: Data, depth: nat, obj: nat, isObject: bool,
                                        es: Entries, first: bool, space: string, at: nat)
    requires AreNamed(parts) && depth > |parts| && ValidEntries(isObject, es) && Inside(d, parts, depth, obj)
    ensures Closed(Feed(s, PathTo(parts), d, InnerEvents(isObject, es, first, space, at)), parts, depth, obj, isObject,
                   at + |Inner(isObject, es, first, space)| - 1)
    decreases es
  {
    hide Callback, Feed, PathTo, Inside, Events, LeadEvents, Lead, Closed, AreNamed, Valid, Text, AllBlank;
    var path := PathTo(parts);
    if es == Nil {
      ClosingCloses(s, parts, d, depth, obj, isObject, at + |space|);
    } else {
      var value := at + |Lead(isObject, first, es)|;
      var lead, inside := LeadEvents(isObject, first, es, at), Events(es.value, value);
      var rest := InnerEvents(isObject, es.rest, false, space, value + |Text(es.value)|);
      LeadIsQuiet(isObject, first, es, at);
      FeedQuiet(s, parts, d, depth, obj, lead);
      FeedAppend(s, path, d, lead, inside + rest);
      var d1 := Feed(s, path, d, lead).0;
      ValueIsQuiet(s, parts, d1, depth, obj, es.value, value);
      FeedAppend(s, path, d1, inside, rest);
      InnerIsQuiet(s, parts, Feed(s, path, d1, inside).0, depth, obj, isObject, es.rest, false, space,
                   value + |Text(es.value)|);
    }
  }

  /** The open bracket of the value looked for. */
  lemma OpensTheValue(s: string, parts: seq<Part>, d: Data, count: nat, isObject: bool, at: nat)
    requires AreNamed(parts) && Seeks(d, parts, |parts|, count, |parts|)
    ensures var fed := Callback(s, PathTo(parts), d, Event(Open(isObject) as int, at, 1));
            !fed.1 && Inside(fed.0, parts, |parts| + 1, at)
  {
    hide PosOf, PathTo, PartLength;
    PathAt(parts, |parts|);
  }

  lemma ScalarIsHit(s: string, parts: seq<Part>, d: Data, count: nat, e: Event)
    requires AreNamed(parts) && Seeks(d, parts, |parts|, count, |parts|) && IsValueToken(e.tok)
    ensures Follows(Callback(s, PathTo(parts), d, e), parts, Arrived(Found(e.tok, e.off, e.len)), |parts|)
  {
    hide PosOf, PathTo, PartLength;
    PathAt(parts, |parts|);
  }

  lemma ClosedIsFollowed(fed: (Data, bool), parts: seq<Part>, obj: nat, isObject: bool, end: int)
    requires Closed(fed, parts, |parts| + 1, obj, isObject, end)
    ensures Follows(fed, parts, Arrived(Found(Open(isObject) as int, obj, end - obj + 1)), |parts|)
  {}

  /** With all of the path matched at its own depth, a value is what the lookup returns. */
  lemma ValueIsHit(s: string, parts: seq<Part>, d: Data, count: nat, v: Json, at: nat)
    requires AreNamed(parts) && Valid(v) && Seeks(d, parts, |parts|, count, |parts|)
    ensures Follows(Feed(s, PathTo(parts), d, Events(v, at)), parts, Arrived(Here(v, at)), |parts|)
  {
    hide PathTo, InnerEvents, Inner, Callback, Seeks, Inside, Follows, Closed, Feed;
    var path := PathTo(parts);
    match v
    case Lit(tok, text) =>
      FeedOne(s, path, d, Event(tok, at, |text|));
      ScalarIsHit(s, parts, d, count, Event(tok, at, |text|));
    case Node(isObject, entries, space) =>
      var e := Event(Open(isObject) as int, at, 1);
      OpensTheValue(s, parts, d, count, isObject, at);
      FeedOne(s, path, d, e);
      FeedAppend(s, path, d, [e], InnerEvents(isObject, entries, true, space, at + 1));
      var d1 := Callback(s, path, d, e).0;
      InnerIsQuiet(s, parts, d1, |parts| + 1, at, isObject, entries, true, space, at + 1);
      ClosedIsFollowed(Feed(s, path, d1, InnerEvents(isObject, entries, true, space, at + 1)), parts, at, isObject,
                       at + |Inner(isObject, entries, true, space)|);
  }

  // ----- A whole value ------------------------------------------------------------------------------------

  lemma FollowsAppend(s: string, parts: seq<Part>, d: Data, a: seq<Event>, b: seq<Event>, r: Course, q: Course,
                      inner: int, outer: int)
    requires Follows(Feed(s, PathTo(parts), d, a), parts, r, inner)
    requires if r.Seeking? then Follows(Feed(s, PathTo(parts), Feed(s, PathTo(parts), d, a).0, b), parts, q, outer)
             else q == r
    ensures Follows(Feed(s, PathTo(parts), d, a + b), parts, q, outer)
  {
    hide Feed, PathTo, Seeks;
    FeedAppend(s, PathTo(parts), d, a, b);
  }

  lemma CommasFollow(s: string, parts: seq<Part>, d: Data, j: nat, count: nat, depth: nat, first: bool, space: string,
                     at: nat)
    requires AreNamed(parts) && j <= |parts| && Seeks(d, parts, j, count, depth)
    ensures Follows(Feed(s, PathTo(parts), d, CommaEvents(first, space, at)), parts,
                    Track(CommaMarks(first, depth), j, count, parts), depth)
  {
    hide Callback, PathTo, Seeks;
    if first {
      FeedNothing(s, PathTo(parts), d);
      TrackNone(j, count, parts);
    } else {
      FeedOne(s, PathTo(parts), d, Event(',' as int, at + |space|, 1));
      CommaFollows(s, parts, d, j, count, depth, at + |space|);
    }
  }

  lemma KeysFollow(s: string, parts: seq<Part>, d: Data, j: nat, count: nat, depth: nat, isObject: bool, key: string,
                   space: string, at: nat)
    requires AreNamed(parts) && j <= |parts| && Seeks(d, parts, j, count, depth)
    requires At(s, at, KeyText(isObject, key, space))
    ensures Follows(Feed(s, PathTo(parts), d, KeyEvents(isObject, key, space, at)), parts,
                    Track(KeyMarks(isObject, key, depth), j, count, parts), depth)
  {
    hide Callback, PathTo, Seeks, Feed, Track, At, Quoted;
    var path := PathTo(parts);
    if isObject {
      var e, colon := Event(TOK_KEY, at, |key| + 2), Event(':' as int, at + |key| + 2 + |space|, 1);
      AtParts(s, at, Quoted(key), space + [':']);
      NamesFollows(s, parts, d, j, count, depth, key, at);
      FeedOne(s, path, d, e);
      var d1, r := Callback(s, path, d, e).0, Track([Names(depth, key)], j, count, parts);
      if r.Seeking? {
        ColonFollows(s, parts, d1, r.j, r.count, depth, colon.off);
        FeedOne(s, path, d1, colon);
      }
      FollowsAppend(s, parts, d, [e], [colon], r, r, depth, depth);
    } else {
      FeedNothing(s, path, d);
      TrackNone(j, count, parts);
    }
  }

  lemma LeadFollows(s: string, parts: seq<Part>, d: Data, j: nat, count: nat, depth: nat, isObject: bool, es: Entries,
                    first: bool, at: nat)
    requires AreNamed(parts) && j <= |parts| && Seeks(d, parts, j, count, depth)
    requires es.Cons? && At(s, at, Lead(isObject, first, es))
    ensures Follows(Feed(s, PathTo(parts), d, LeadEvents(isObject, first, es, at)), parts,
                    Track(LeadMarks(isObject, first, es.key, depth), j, count, parts), depth)
  {
    hide PathTo, Seeks, Feed, Track, At, KeyText, KeyEvents, CommaText, CommaEvents, CommaMarks, KeyMarks;
    var comma, key := CommaText(first, es.beforeComma), KeyText(isObject, es.key, es.beforeColon);
    AtParts(s, at, comma, es.beforeKey + (key + es.beforeValue));
    AtParts(s, at + |comma|, es.beforeKey, key + es.beforeValue);
    var k := at + |comma| + |es.beforeKey|;
    AtParts(s, k, key, es.beforeValue);
    var a, b := CommaEvents(first, es.beforeComma, at), KeyEvents(isObject, es.key, es.beforeColon, k);
    CommasFollow(s, parts, d, j, count, depth, first, es.beforeComma, at);
    var r := Track(CommaMarks(first, depth), j, count, parts);
    if r.Seeking? {
      KeysFollow(s, parts, Feed(s, PathTo(parts), d, a).0, r.j, r.count, depth, isObject, es.key, es.beforeColon, k);
    }
    TrackAppend(CommaMarks(first, depth), KeyMarks(isObject, es.key, depth), j, count, parts);
    FollowsAppend(s, parts, d, a, b, r, Track(LeadMarks(isObject, first, es.key, depth), j, count, parts), depth,
        depth);
  }

  /** The mark of a value itself. */
  lemma HoldsMark(v: Json, at: nat, depth: nat, more: seq<Mark>, j: nat, count: nat, parts: seq<Part>)
    requires j <= |parts|
    ensures Track([Holds(depth, Here(v, at))] + more, j, count, parts)
         == if j == |parts| == depth then Arrived(Here(v, at)) else Track(more, j, count, parts)
  {
    hide Text;
    TrackSingle(Holds(depth, Here(v, at)), j, count, parts);
    TrackAppend([Holds(depth, Here(v, at))], more, j, count, parts);
  }

  lemma MarksOf(v: Json, at: nat, depth: nat)
    ensures Marks(v, at, depth) == [Holds(depth, Here(v, at))] +
      if v.Lit? then []
      else Opening(v.isObject, depth + 1) + InnerMarks(v.isObject, v.entries, true, at + 1, depth + 1)
  {
    hide InnerMarks, Text;
  }

  /** The value behind the last part is arrived at. */
  lemma ValueArrives(v: Json, at: nat, more: seq<Mark>, count: nat, parts: seq<Part>)
    ensures Track(Marks(v, at, |parts|) + more, |parts|, count, parts) == Arrived(Here(v, at))
  {
    hide Track, Marks, InnerMarks, Text, Opening;
    var ms := Marks(v, at, |parts|);
    MarksOf(v, at, |parts|);
    assert ms == [Holds(|parts|, Here(v, at))] + ms[1..];
    HoldsMark(v, at, |parts|, ms[1..], |parts|, count, parts);
    TrackAppend(ms, more, |parts|, count, parts);
  }

  /** The automaton on the events of a value does what the pass over its marks does. */
  lemma {:induction false} ValueFollows(s: string, parts: seq<Part>, d: Data, j: nat, count: nat, depth: nat, v: Json,
                                        at: nat)
    requires AreNamed(parts) && j <= |parts| && Seeks(d, parts, j, count, depth) && Valid(v) && At(s, at, Text(v))
    ensures Follows(Feed(s, PathTo(parts), d, Events(v, at)), parts, Track(Marks(v, at, depth), j, count, parts), depth)
    decreases v
  {
    hide PathTo, Seeks, At, Feed, Track, Inner, InnerEvents, InnerMarks, Callback, Follows, Opening, Marks;
    var path := PathTo(parts);
    MarksOf(v, at, depth);
    if j == |parts| == depth {
      ValueIsHit(s, parts, d, count, v, at);
      HoldsMark(v, at, depth, Marks(v, at, depth)[1..], j, count, parts);
    } else {
      match v
      case Lit(tok, text) =>
        HoldsMark(v, at, depth, [], j, count, parts);
        TrackNone(j, count, parts);
        FeedOne(s, path, d, Event(tok, at, |text|));
        LitFollows(s, parts, d, j, count, depth, Event(tok, at, |text|));
      case Node(isObject, entries, space) =>
        var e, inner := Event(Open(isObject) as int, at, 1), InnerEvents(isObject, entries, true, space, at + 1);
        var opening, marks := Opening(isObject, depth + 1), InnerMarks(isObject, entries, true, at + 1, depth + 1);
        HoldsMark(v, at, depth, opening + marks, j, count, parts);
        TrackAppend(opening, marks, j, count, parts);
        AtParts(s, at, [Open(isObject)], Inner(isObject, entries, true, space));
        OpensFollows(s, parts, isObject, d, j, count, depth, at);
        FeedOne(s, path, d, e);
        var d1, r := Callback(s, path, d, e).0, Track(opening, j, count, parts);
        StillSeeking(isObject, depth + 1, j, count, parts);
        FollowsSeeks(Callback(s, path, d, e), parts, r, depth + 1);
        InnerFollows(s, parts, d1, r.j, r.count, depth + 1, isObject, entries, true, space, at + 1);
        FollowsAppend(s, parts, d, [e], inner, r, Track(marks, r.j, r.count, parts), depth + 1, depth);
    }
  }

  lemma StillSeeking(isObject: bool, depth: nat, j: nat, count: nat, parts: seq<Part>)
    requires j <= |parts|
    ensures Track(Opening(isObject, depth), j, count, parts).Seeking?
  {
    TrackSingle(Opens(depth), j, count, parts);
  }

  lemma FollowsSeeks(fed: (Data, bool), parts: seq<Part>, r: Course, depth: int)
    requires r.Seeking? && Follows(fed, parts, r, depth)
    ensures !fed.1 && r.j <= |parts| && Seeks(fed.0, parts, r.j, r.count, depth)
  {}

  lemma InnerMarksSplit(isObject: bool, es: Entries, first: bool, at: nat, depth: nat)
    ensures InnerMarks(isObject, es, first, at, depth) ==
      if es == Nil then []
      else
        var value := at + |Lead(isObject, first, es)|;
        LeadMarks(isObject, first, es.key, depth)
        + (Marks(es.value, value, depth) + InnerMarks(isObject, es.rest, false, value + |Text(es.value)|, depth))
  {
    hide Marks, Text, Lead, LeadMarks;
  }

  lemma InnerSplit(isObject: bool, es: Entries, first: bool, space: string, at: nat)
    ensures if es == Nil then InnerEvents(isObject, es, first, space, at)
            == [Event(Closing(isObject) as int, at + |space|, 1)]
            else
              var value := at + |Lead(isObject, first, es)|;
              && Inner(isObject, es, first, space)
                 == Lead(isObject, first, es) + (Text(es.value) + Inner(isObject, es.rest, false, space))
              && InnerEvents(isObject, es, first, space, at)
                 == LeadEvents(isObject, first, es, at)
                    + (Events(es.value, value)
                       + InnerEvents(isObject, es.rest, false, space, value + |Text(es.value)|))
  {
    hide Lead, LeadEvents, Events, Text;
  }

  lemma {:induction false} InnerFollows(s: string, parts: seq<Part>, d: Data, j: nat, count: nat, depth: nat,
                                        isObject: bool, es: Entries, first: bool, space: string, at: nat)
    requires AreNamed(parts) && j <= |parts| && Seeks(d, parts, j, count, depth)
    requires ValidEntries(isObject, es) && At(s, at, Inner(isObject, es, first, space))
    ensures Follows(Feed(s, PathTo(parts), d, InnerEvents(isObject, es, first, space, at)), parts,
                    Track(InnerMarks(isObject, es, first, at, depth), j, count, parts), depth - 1)
    decreases es
  {
    hide PathTo, Seeks, At, Feed, Track, Callback, Follows, Lead, LeadEvents, LeadMarks, Events, Marks, InnerMarks,
         Text,
         Valid, AllBlank, Inner, InnerEvents, AreNamed;
    var path := PathTo(parts);
    InnerSplit(isObject, es, first, space, at);
    InnerMarksSplit(isObject, es, first, at, depth);
    if es == Nil {
      ClosesFollows(s, parts, isObject, d, j, count, depth, at + |space|);
      FeedOne(s, path, d, Event(Closing(isObject) as int, at + |space|, 1));
      TrackNone(j, count, parts);
    } else {
      var lead, text, behind := Lead(isObject, first, es), Text(es.value), Inner(isObject, es.rest, false, space);
      var value := at + |lead|;
      var next := value + |text|;
      AtParts(s, at, lead, text + behind);
      AtParts(s, value, text, behind);
      LeadFollows(s, parts, d, j, count, depth, isObject, es, first, at);
      var leadEvents := LeadEvents(isObject, first, es, at);
      var tail := Events(es.value, value) + InnerEvents(isObject, es.rest, false, space, next);
      var leadMarks := LeadMarks(isObject, first, es.key, depth);
      var more := Marks(es.value, value, depth) + InnerMarks(isObject, es.rest, false, next, depth);
      var r := Track(leadMarks, j, count, parts);
      TrackAppend(leadMarks, more, j, count, parts);
      if r.Seeking? {
        FollowsSeeks(Feed(s, path, d, leadEvents), parts, r, depth);
        EntryFollows(s, parts, Feed(s, path, d, leadEvents).0, r.j, r.count, depth, isObject, es, space, value, tail,
            more);
      }
      FollowsAppend(s, parts, d, leadEvents, tail, r, Track(leadMarks + more, j, count, parts), depth, depth - 1);
    }
  }

  /** From the value of an entry on. */
  lemma {:induction false} EntryFollows(s: string, parts: seq<Part>, d: Data, j: nat, count: nat, depth: nat,
                                        isObject: bool, es: Entries, space: string, value: nat,
                                        tail: seq<Event>, more: seq<Mark>)
    requires AreNamed(parts) && j <= |parts| && Seeks(d, parts, j, count, depth)
    requires es.Cons? && ValidEntries(isObject, es)
    requires At(s, value, Text(es.value)) && At(s, value + |Text(es.value)|, Inner(isObject, es.rest, false, space))
    requires tail == Events(es.value, value) + InnerEvents(isObject, es.rest, false, space, value + |Text(es.value)|)
    requires more == Marks(es.value, value, depth)
                     + InnerMarks(isObject, es.rest, false, value + |Text(es.value)|, depth)
    ensures Follows(Feed(s, PathTo(parts), d, tail), parts, Track(more, j, count, parts), depth - 1)
    decreases es, 0
  {
    hide PathTo, Seeks, At, Feed, Track, Callback, Follows, Lead, LeadEvents, Events, Marks, Text, Valid, AllBlank,
         Inner, InnerEvents, InnerMarks;
    var path, next := PathTo(parts), value + |Text(es.value)|;
    var inside, behind := Events(es.value, value), InnerEvents(isObject, es.rest, false, space, next);
    var marks, rest := Marks(es.value, value, depth), InnerMarks(isObject, es.rest, false, next, depth);
    ValueFollows(s, parts, d, j, count, depth, es.value, value);
    TrackAppend(marks, rest, j, count, parts);
    var r := Track(marks, j, count, parts);
    if r.Seeking? {
      FollowsSeeks(Feed(s, path, d, inside), parts, r, depth);
      InnerFollows(s, parts, Feed(s, path, d, inside).0, r.j, r.count, depth, isObject, es.rest, false, space, next);
    }
    FollowsAppend(s, parts, d, inside, behind, r, Track(more, j, count, parts), depth, depth - 1);
  }

  // ----- mjson_find is the pass over the marks ------------------------------------------------------------

  function FoundBy(r: Course): Found {
    if r.Arrived? then r.value else NotFound
  }

  /** On a printed tree, mjson_find is the pass over its marks, for any path of keys and indices. */
  lemma FindIsTrack(before: string, v: Json, after: string, parts: seq<Part>)
    requires AllBlank(before) && Valid(v) && Delimits(after) && Depth(v) <= MAX_DEPTH && AreNamed(parts)
    ensures Find(before + Text(v) + after, PathTo(parts))
         == FoundBy(Track(Marks(v, |before|, 0), 0, Fresh(0, parts), parts))
  {
    hide Feed, Drive, Scan, Track, PartsText, Text, Events, Marks, Delimits, AreNamed, AllBlank;
    var s := before + Text(v) + after;
    var path := PathTo(parts);
    DocumentIsScanned(before, v, after);
    DriveIsFeed(s, path, FRESH, ScanAll(s));
    assert Seeks(FRESH, parts, 0, Fresh(0, parts), 0);
    assert At(s, |before|, Text(v));
    ValueFollows(s, parts, FRESH, 0, Fresh(0, parts), 0, v, |before|);
  }
}

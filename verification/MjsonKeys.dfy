/**
 mjson_find on paths of keys alone (libs/mjson.c): a pass over the keys of the tree and their depths. Nothing else of
 the tree matters then.
 */
module MjsonKeys {
  import opened MjsonText
  import opened MjsonScanner
  import opened MjsonFind
  import opened MjsonPath
  import opened MjsonMarks

  // ----- Paths of keys ------------------------------------------------------------------------------------

  predicate AreParts(keys: seq<string>) {
    forall i :: 0 <= i < |keys| ==> IsPart(keys[i])
  }

  function KeyParts(keys: seq<string>): (parts: seq<Part>)
    ensures |parts| == |keys| && forall i :: 0 <= i < |keys| ==> parts[i] == Name(keys[i])
  {
    seq(|keys|, i requires 0 <= i < |keys| => Name(keys[i]))
  }

  function PathOf(keys: seq<string>): string {
    PathTo(KeyParts(keys))
  }

  // ----- The keys of a tree -------------------------------------------------------------------------------

  /** A key of an object: at what depth, and where its value is. */
  datatype KeyInfo = KeyInfo(depth: nat, key: string, tok: int, off: nat, len: nat)

  /** All the keys in `v`, printed at `at` inside `depth` brackets, in the order of the text. */
  function Keys(v: Json, at: nat, depth: nat): seq<KeyInfo>
    decreases v
  {
    match v
    case Lit(_, _) => []
    case Node(isObject, entries, _) => InnerKeys(isObject, entries, true, at + 1, depth + 1)
  }

  function InnerKeys(isObject: bool, es: Entries, first: bool, at: nat, depth: nat): seq<KeyInfo>
    decreases es
  {
    if es == Nil then []
    else
      var value := at + |Lead(isObject, first, es)|;
      KeyOf(isObject, es, value, depth)
      + (Keys(es.value, value, depth) + InnerKeys(isObject, es.rest, false, value + |Text(es.value)|, depth))
  }

  function KeyOf(isObject: bool, es: Entries, value: nat, depth: nat): seq<KeyInfo>
    requires es.Cons?
  {
    if isObject then [KeyInfo(depth, es.key, TokOf(es.value), value, |Text(es.value)|)] else []
  }

  /** How a pass over keys ends when `j` parts of the path have been matched so far. */
  datatype Pass = Going(j: nat) | Exhausted | Hit(tok: int, off: int, len: int)

  /**
   The automaton without the text: a key one deeper than the parts matched so far and equal to the next part
   is taken for it; a key just as deep as the parts matched ends the search.
   */
  function Flat(ks: seq<KeyInfo>, j: nat, keys: seq<string>): (p: Pass)
    requires j < |keys|
    ensures p.Going? ==> p.j < |keys|
    decreases |ks|
  {
    if ks == [] then Going(j)
    else
      var k := ks[0];
      if k.depth == j + 1 && k.key == keys[j] then
        if j + 1 == |keys| then Hit(k.tok, k.off, k.len) else Flat(ks[1..], j + 1, keys)
      else if k.depth == j then Exhausted
      else Flat(ks[1..], j, keys)
  }

  lemma {:induction false} FlatAppend(a: seq<KeyInfo>, b: seq<KeyInfo>, j: nat, keys: seq<string>)
    requires j < |keys|
    ensures var p := Flat(a, j, keys);
            Flat(a + b, j, keys) == if p.Going? then Flat(b, p.j, keys) else p
    decreases |a|
  {
    if a == [] {
      assert a + b == b;
    } else {
      assert (a + b)[1..] == a[1..] + b;
      var k := a[0];
      var j' := if k.depth == j + 1 && k.key == keys[j] then j + 1 else j;
      if j' < |keys| { FlatAppend(a[1..], b, j', keys); }
    }
  }

  /** How far the lead of an entry gets the search. */
  function LeadPass(isObject: bool, key: string, depth: nat, j: nat, keys: seq<string>): (p: Pass)
    requires j < |keys|
    ensures !p.Hit? && (p.Going? ==> p.j <= |keys| && (p.j == |keys| ==> depth == p.j))
  {
    if isObject && depth == j + 1 && key == keys[j] then Going(j + 1)
    else if isObject && depth == j then Exhausted
    else Going(j)
  }

  /** What remains of the pass over the keys of an entry and those behind it, given its lead. */
  lemma FlatEntry(isObject: bool, es: Entries, value: nat, depth: nat, more: seq<KeyInfo>, j: nat, keys: seq<string>)
    requires j < |keys| && es.Cons?
    ensures var p := LeadPass(isObject, es.key, depth, j, keys);
            Flat(KeyOf(isObject, es, value, depth) + more, j, keys)
            == if p.Exhausted? then Exhausted else if p.j == |keys| then Hit(TokOf(es.value), value, |Text(es.value)|)
                else Flat(more, p.j, keys)
  {
    var ks := KeyOf(isObject, es, value, depth);
    if isObject {
      assert (ks + more)[0] == ks[0] && (ks + more)[1..] == more;
    } else {
      assert ks + more == more;
    }
  }

  lemma FlatNone(j: nat, keys: seq<string>)
    requires j < |keys|
    ensures Flat([], j, keys) == Going(j)
  {}

  // ----- The pass over the marks is a pass over the keys --------------------------------------------------

  predicate Agree(r: Course, p: Pass) {
    match p
    case Going(j) => r == Seeking(j, 0)
    case Exhausted => r == GivenUp
    case Hit(tok, off, len) => r == Arrived(Found(tok, off, len))
  }

  lemma LeadAgrees(isObject: bool, first: bool, key: string, depth: nat, j: nat, keys: seq<string>)
    requires j < |keys|
    ensures Agree(Track(LeadMarks(isObject, first, key, depth), j, 0, KeyParts(keys)),
                  LeadPass(isObject, key, depth, j, keys))
  {
    hide KeyParts;
    var parts := KeyParts(keys);
    TrackAppend(CommaMarks(first, depth), KeyMarks(isObject, key, depth), j, 0, parts);
    if first { TrackNone(j, 0, parts); } else { TrackSingle(Comma(depth), j, 0, parts); }
    if isObject { TrackSingle(Names(depth, key), j, 0, parts); } else { TrackNone(j, 0, parts); }
  }

  lemma {:induction false} ValueAgrees(v: Json, at: nat, depth: nat, j: nat, keys: seq<string>)
    requires j < |keys|
    ensures Agree(Track(Marks(v, at, depth), j, 0, KeyParts(keys)), Flat(Keys(v, at, depth), j, keys))
    decreases v
  {
    hide Track, Flat, Marks, InnerMarks, InnerKeys, Text, KeyParts;
    var parts := KeyParts(keys);
    MarksOf(v, at, depth);
    match v
    case Lit(_, _) =>
      HoldsMark(v, at, depth, [], j, 0, parts);
      TrackNone(j, 0, parts);
      FlatNone(j, keys);
    case Node(isObject, entries, _) =>
      var opening, marks := Opening(isObject, depth + 1), InnerMarks(isObject, entries, true, at + 1, depth + 1);
      HoldsMark(v, at, depth, opening + marks, j, 0, parts);
      TrackAppend(opening, marks, j, 0, parts);
      if isObject { TrackNone(j, 0, parts); } else { TrackSingle(Opens(depth + 1), j, 0, parts); }
      InnerAgrees(isObject, entries, true, at + 1, depth + 1, j, keys);
  }

  lemma {:induction false} InnerAgrees(isObject: bool, es: Entries, first: bool, at: nat, depth: nat, j: nat,
                                       keys: seq<string>)
    requires j < |keys|
    ensures Agree(Track(InnerMarks(isObject, es, first, at, depth), j, 0, KeyParts(keys)),
                  Flat(InnerKeys(isObject, es, first, at, depth), j, keys))
    decreases es
  {
    hide Track, Flat, Marks, InnerMarks, LeadMarks, LeadPass, Lead, Keys, KeyOf, Text, KeyParts;
    var parts := KeyParts(keys);
    InnerMarksSplit(isObject, es, first, at, depth);
    if es == Nil {
      TrackNone(j, 0, parts);
      FlatNone(j, keys);
    } else {
      var value := at + |Lead(isObject, first, es)|;
      var next := value + |Text(es.value)|;
      var lead, marks := LeadMarks(isObject, first, es.key, depth), Marks(es.value, value, depth);
      var rest := InnerMarks(isObject, es.rest, false, next, depth);
      var ks, more := Keys(es.value, value, depth), InnerKeys(isObject, es.rest, false, next, depth);
      var p := LeadPass(isObject, es.key, depth, j, keys);
      LeadAgrees(isObject, first, es.key, depth, j, keys);
      TrackAppend(lead, marks + rest, j, 0, parts);
      FlatEntry(isObject, es, value, depth, ks + more, j, keys);
      if p.Going? {
        if p.j == |keys| {
          ValueArrives(es.value, value, rest, 0, parts);
        } else {
          ValueAgrees(es.value, value, depth, p.j, keys);
          TrackAppend(marks, rest, p.j, 0, parts);
          FlatAppend(ks, more, p.j, keys);
          var q := Flat(ks, p.j, keys);
          if q.Going? { InnerAgrees(isObject, es.rest, false, next, depth, q.j, keys); }
        }
      }
    }
  }

  function HitOf(p: Pass): Found {
    match p case Hit(tok, off, len) => Found(tok, off, len) case _ => NotFound
  }

  /** On a printed tree and a path of keys, mjson_find is the pass over the keys of the tree. */
  lemma FindIsFlat(before: string, v: Json, after: string, keys: seq<string>)
    requires AllBlank(before) && Valid(v) && Delimits(after) && Depth(v) <= MAX_DEPTH && AreParts(keys)
    ensures Find(before + Text(v) + after, PathOf(keys))
         == if keys == [] then Found(TokOf(v), |before|, |Text(v)|) else HitOf(Flat(Keys(v, |before|, 0), 0, keys))
  {
    hide Find, Track, Flat, Text, Marks, Keys, PathTo, Delimits, AllBlank, KeyParts;
    var parts := KeyParts(keys);
    FindIsTrack(before, v, after, parts);
    if keys == [] {
      ValueArrives(v, |before|, [], 0, parts);
      assert Marks(v, |before|, 0) + [] == Marks(v, |before|, 0);
    } else {
      ValueAgrees(v, |before|, 0, 0, keys);
    }
  }
}

/**
 What mjson_find finds, compared with the recursive lookup in the tree (libs/mjson.c): it finds whatever the
 lookup finds, and can also find something where the lookup fails. The module says exactly when, for a
 path and for all paths at once.
 */
module MjsonLookup {
  import opened MjsonText
  import opened MjsonScanner
  import opened MjsonFind
  import opened MjsonPath
  import opened MjsonMarks
  import opened MjsonKeys

  // ----- The recursive lookup -----------------------------------------------------------------------------

  /** The value behind `keys` in `v`: in each object the first entry with the key, and no other. */
  function Lookup(v: Json, at: nat, keys: seq<string>): Found
    decreases v
  {
    if keys == [] then Found(TokOf(v), at, |Text(v)|)
    else match v
      case Lit(_, _) => NotFound
      case Node(isObject, entries, _) => if isObject then LookupIn(entries, true, at + 1, keys) else NotFound
  }

  function LookupIn(es: Entries, first: bool, at: nat, keys: seq<string>): Found
    requires keys != []
    decreases es
  {
    if es == Nil then NotFound
    else
      var value := at + |Lead(true, first, es)|;
      if es.key == keys[0] then Lookup(es.value, value, keys[1..])
      else LookupIn(es.rest, false, value + |Text(es.value)|, keys)
  }

  /** Where a lookup fails: how many parts it could follow, and the keys of the text behind the value it had come to. */
  datatype Loss = Loss(j: nat, behind: seq<KeyInfo>)

  function Lost(v: Json, at: nat, j: nat, keys: seq<string>): Loss
    decreases v
  {
    if j < |keys| && v.Node? && v.isObject then LostIn(v.entries, true, at + 1, j, keys) else Loss(j, [])
  }

  function LostIn(es: Entries, first: bool, at: nat, j: nat, keys: seq<string>): Loss
    requires j < |keys|
    decreases es
  {
    if es == Nil then Loss(j, [])
    else
      var value := at + |Lead(true, first, es)|;
      var next := value + |Text(es.value)|;
      if es.key != keys[j] then LostIn(es.rest, false, next, j, keys)
      else
        var l := Lost(es.value, value, j + 1, keys);
        Loss(l.j, l.behind + InnerKeys(true, es.rest, false, next, j + 1))
  }

  // ----- The remaining parts among the keys behind --------------------------------------------------------

  /** A key that is taken for part `j`. */
  predicate IsNext(k: KeyInfo, j: nat, keys: seq<string>)
    requires j < |keys|
  {
    k.depth == j + 1 && k.key == keys[j]
  }

  /** From position `from` on, the first key at depth `j` or for part `j` is one for the part, at position `p`. */
  predicate Taken(ks: seq<KeyInfo>, from: nat, p: nat, j: nat, keys: seq<string>)
    requires j < |keys|
  {
    && from <= p < |ks| && IsNext(ks[p], j, keys)
    && forall n :: from <= n < p ==> ks[n].depth != j && !IsNext(ks[n], j, keys)
  }

  /** Where the search for the i-th of the remaining parts begins: behind the key taken for the one before. */
  function Begin(ps: seq<nat>, from: nat, i: nat): nat
    requires i <= |ps|
  {
    if i == 0 then from else ps[i - 1] + 1
  }

  /**
   The parts from `j` on occur one behind the other as keys of `ks`, at the positions `ps` and each one deeper than
   the one before; between two of them there is neither a key at the depth already reached nor one for the next part.
   */
  predicate Occur(ks: seq<KeyInfo>, from: nat, j: nat, keys: seq<string>, ps: seq<nat>)
    requires j <= |keys|
  {
    |ps| == |keys| - j && forall i :: 0 <= i < |ps| ==> Taken(ks, Begin(ps, from, i), ps[i], j + i, keys)
  }

  /** The lookup fails, and the parts it could not follow occur among the keys behind the value it had come to. */
  ghost predicate Stray(v: Json, at: nat, keys: seq<string>) {
    var l := Lost(v, at, 0, keys);
    l.j < |keys| && exists ps: seq<nat> :: Occur(l.behind, 0, l.j, keys, ps)
  }

  lemma FlatFrom(ks: seq<KeyInfo>, from: nat, j: nat, keys: seq<string>)
    requires from < |ks| && j < |keys|
    ensures var k := ks[from];
            Flat(ks[from..], j, keys)
            == if IsNext(k, j, keys) then if j + 1 == |keys| then Hit(k.tok, k.off, k.len)
                else Flat(ks[from + 1..], j + 1, keys)
               else if k.depth == j then Exhausted else Flat(ks[from + 1..], j, keys)
  {
    assert ks[from..][0] == ks[from] && ks[from..][1..] == ks[from + 1..];
  }

  /** An occurrence begins with the key taken for part `j`, and goes on behind it. */
  lemma OccurSplits(ks: seq<KeyInfo>, from: nat, j: nat, keys: seq<string>, ps: seq<nat>)
    requires j < |keys| && ps != []
    ensures Occur(ks, from, j, keys, ps)
            <==> Taken(ks, from, ps[0], j, keys) && Occur(ks, ps[0] + 1, j + 1, keys, ps[1..])
  {
    hide Taken;
    var more := ps[1..];
    forall i | 0 <= i < |more|
      ensures Begin(more, ps[0] + 1, i) == Begin(ps, from, i + 1) && more[i] == ps[i + 1] && j + 1 + i == j + (i + 1)
    {}
    if Taken(ks, from, ps[0], j, keys) && Occur(ks, ps[0] + 1, j + 1, keys, more) {
      forall i | 0 <= i < |ps|
        ensures Taken(ks, Begin(ps, from, i), ps[i], j + i, keys)
      {
        if i > 0 { assert Taken(ks, Begin(more, ps[0] + 1, i - 1), more[i - 1], j + 1 + (i - 1), keys); }
      }
    }
    if Occur(ks, from, j, keys, ps) {
      assert Taken(ks, Begin(ps, from, 0), ps[0], j + 0, keys);
      forall i | 0 <= i < |more|
        ensures Taken(ks, Begin(more, ps[0] + 1, i), more[i], j + 1 + i, keys)
      {
        assert Taken(ks, Begin(ps, from, i + 1), ps[i + 1], j + (i + 1), keys);
      }
    }
  }

  lemma TakenFrom(ks: seq<KeyInfo>, from: nat, p: nat, j: nat, keys: seq<string>)
    requires from < |ks| && j < |keys|
    ensures Taken(ks, from, p, j, keys)
            <==> if IsNext(ks[from], j, keys) then p == from else ks[from].depth != j && Taken(ks, from + 1, p, j, keys)
  {}

  lemma {:induction false} HitOccurs(ks: seq<KeyInfo>, from: nat, j: nat, keys: seq<string>) returns (ps: seq<nat>)
    requires from <= |ks| && j < |keys| && Flat(ks[from..], j, keys).Hit?
    ensures Occur(ks, from, j, keys, ps)
    decreases |ks| - from
  {
    FlatFrom(ks, from, j, keys);
    hide Flat, Taken, IsNext;
    TakenFrom(ks, from, from, j, keys);
    if IsNext(ks[from], j, keys) {
      ps := [];
      if j + 1 < |keys| { ps := HitOccurs(ks, from + 1, j + 1, keys); }
      ps := [from] + ps;
    } else {
      ps := HitOccurs(ks, from + 1, j, keys);
      OccurSplits(ks, from + 1, j, keys, ps);
      TakenFrom(ks, from, ps[0], j, keys);
    }
    OccurSplits(ks, from, j, keys, ps);
  }

  lemma {:induction false} OccurrenceHits(ks: seq<KeyInfo>, from: nat, j: nat, keys: seq<string>, ps: seq<nat>)
    requires from <= |ks| && j < |keys| && Occur(ks, from, j, keys, ps)
    ensures Flat(ks[from..], j, keys).Hit?
    decreases |ks| - from
  {
    OccurSplits(ks, from, j, keys, ps);
    TakenInside(ks, from, ps[0], j, keys);
    FlatFrom(ks, from, j, keys);
    hide Flat, Taken, IsNext;
    TakenFrom(ks, from, ps[0], j, keys);
    if !IsNext(ks[from], j, keys) {
      OccurSplits(ks, from + 1, j, keys, ps);
      OccurrenceHits(ks, from + 1, j, keys, ps);
    } else if j + 1 < |keys| {
      OccurrenceHits(ks, from + 1, j + 1, keys, ps[1..]);
    }
  }

  lemma TakenInside(ks: seq<KeyInfo>, from: nat, p: nat, j: nat, keys: seq<string>)
    requires j < |keys| && Taken(ks, from, p, j, keys)
    ensures from < |ks|
  {}

  /** The pass over the keys hits exactly when the parts occur. */
  lemma HitIff(ks: seq<KeyInfo>, j: nat, keys: seq<string>)
    requires j < |keys|
    ensures Flat(ks, j, keys).Hit? <==> exists ps: seq<nat> :: Occur(ks, 0, j, keys, ps)
  {
    hide Flat, Occur;
    assert ks[0..] == ks;
    if Flat(ks, j, keys).Hit? { var ps := HitOccurs(ks, 0, j, keys); }
    if ps: seq<nat> :| Occur(ks, 0, j, keys, ps) { OccurrenceHits(ks, 0, j, keys, ps); }
  }

  // ----- The pass and the lookup --------------------------------------------------------------------------

  predicate AllFrom(ks: seq<KeyInfo>, depth: nat) {
    forall i :: 0 <= i < |ks| ==> ks[i].depth >= depth
  }

  lemma {:induction false} KeysAreDeep(v: Json, at: nat, depth: nat)
    ensures AllFrom(Keys(v, at, depth), depth + 1)
    decreases v
  {
    match v
    case Lit(_, _) =>
    case Node(isObject, entries, _) => InnerKeysAreDeep(isObject, entries, true, at + 1, depth + 1);
  }

  lemma {:induction false} InnerKeysAreDeep(isObject: bool, es: Entries, first: bool, at: nat, depth: nat)
    ensures AllFrom(InnerKeys(isObject, es, first, at, depth), depth)
    decreases es
  {
    if es != Nil {
      var value := at + |Lead(isObject, first, es)|;
      KeysAreDeep(es.value, value, depth);
      InnerKeysAreDeep(isObject, es.rest, false, value + |Text(es.value)|, depth);
    }
  }

  /** Keys two or more deeper than the parts matched change nothing. */
  lemma {:induction false} DeepKeysPass(ks: seq<KeyInfo>, j: nat, keys: seq<string>)
    requires j < |keys| && AllFrom(ks, j + 2)
    ensures Flat(ks, j, keys) == Going(j)
    decreases |ks|
  {
    if ks != [] { DeepKeysPass(ks[1..], j, keys); }
  }

  predicate AgreesUpTo(p: Pass, f: Found, l: Loss, more: seq<KeyInfo>, keys: seq<string>) {
    if f.Found? then HitOf(p) == f && l.j == |keys| else l.j < |keys| && p == Flat(l.behind + more, l.j, keys)
  }

  /** The pass finds what the lookup finds; where the lookup fails, the pass goes on behind. */
  lemma {:induction false} FlatVersusLookup(v: Json, at: nat, j: nat, keys: seq<string>, more: seq<KeyInfo>)
    requires j < |keys|
    ensures AgreesUpTo(Flat(Keys(v, at, j) + more, j, keys), Lookup(v, at, keys[j..]), Lost(v, at, j, keys), more, keys)
    decreases v
  {
    hide Flat, Text, InnerKeys, LookupIn, LostIn;
    match v
    case Lit(_, _) =>
    case Node(isObject, entries, space) =>
      if isObject {
        InnerVersusLookup(entries, true, at + 1, j, keys, more);
      } else {
        InnerKeysAreDeep(false, entries, true, at + 1, j + 1);
        ArrayKeysAreDeep(entries, true, at + 1, j + 1);
        DeepKeysPass(Keys(v, at, j), j, keys);
        FlatAppend(Keys(v, at, j), more, j, keys);
      }
      assert [] + more == more;
  }

  lemma {:induction false} ArrayKeysAreDeep(es: Entries, first: bool, at: nat, depth: nat)
    ensures AllFrom(InnerKeys(false, es, first, at, depth), depth + 1)
    decreases es
  {
    if es != Nil {
      var value := at + |Lead(false, first, es)|;
      KeysAreDeep(es.value, value, depth);
      ArrayKeysAreDeep(es.rest, false, value + |Text(es.value)|, depth);
    }
  }

  lemma {:induction false} InnerVersusLookup(es: Entries, first: bool, at: nat, j: nat, keys: seq<string>,
                                             more: seq<KeyInfo>)
    requires j < |keys|
    ensures AgreesUpTo(Flat(InnerKeys(true, es, first, at, j + 1) + more, j, keys), LookupIn(es, first, at, keys[j..]),
                       LostIn(es, first, at, j, keys), more, keys)
    decreases es
  {
    hide Text, Lookup, Lost, Keys, Lead, Flat, KeyOf;
    if es == Nil {
      assert [] + more == more;
    } else {
      hide InnerKeys;
      var value := at + |Lead(true, first, es)|;
      var next := value + |Text(es.value)|;
      var ks, rest := Keys(es.value, value, j + 1), InnerKeys(true, es.rest, false, next, j + 1);
      InnerKeysSplit(es, first, at, j + 1, more);
      FlatEntry(true, es, value, j + 1, ks + (rest + more), j, keys);
      if es.key == keys[j] {
        assert keys[j..][1..] == keys[j + 1..];
        if j + 1 < |keys| {
          FlatVersusLookup(es.value, value, j + 1, keys, rest + more);
          var l := Lost(es.value, value, j + 1, keys);
          assert l.behind + (rest + more) == (l.behind + rest) + more;
        } else {
          LookupAll(es.value, value);
          LostNothing(es.value, value, keys);
        }
      } else {
        KeysAreDeep(es.value, value, j + 1);
        DeepKeysPass(ks, j, keys);
        FlatAppend(ks, rest + more, j, keys);
        InnerVersusLookup(es.rest, false, next, j, keys, more);
      }
    }
  }

  lemma InnerKeysSplit(es: Entries, first: bool, at: nat, depth: nat, more: seq<KeyInfo>)
    requires es.Cons?
    ensures var value := at + |Lead(true, first, es)|;
            InnerKeys(true, es, first, at, depth) + more
            == KeyOf(true, es, value, depth)
               + (Keys(es.value, value, depth) + (InnerKeys(true, es.rest, false, value + |Text(es.value)|, depth)
                   + more))
  {
    hide Keys, Text, Lead, KeyOf;
    var value := at + |Lead(true, first, es)|;
    var a, b, c := KeyOf(true, es, value, depth), Keys(es.value, value, depth),
                   InnerKeys(true, es.rest, false, value + |Text(es.value)|, depth);
    assert (a + (b + c)) + more == a + (b + (c + more));
  }

  lemma LostNothing(v: Json, at: nat, keys: seq<string>)
    ensures Lost(v, at, |keys|, keys) == Loss(|keys|, [])
  {}

  lemma LookupAll(v: Json, at: nat)
    ensures Lookup(v, at, []) == Found(TokOf(v), at, |Text(v)|)
  {}

  /**
   mjson_find agrees with the recursive lookup exactly when the parts the lookup cannot follow do not occur behind
   the value it comes to. What the lookup finds is always found.
   */
  lemma FindAgreesIff(before: string, v: Json, after: string, keys: seq<string>)
    requires AllBlank(before) && Valid(v) && Delimits(after) && Depth(v) <= MAX_DEPTH && AreParts(keys)
    ensures var found, wanted := Find(before + Text(v) + after, PathOf(keys)), Lookup(v, |before|, keys);
            && (found == wanted <==> !Stray(v, |before|, keys))
            && (wanted.Found? ==> found == wanted)
  {
    hide Find, Text, Keys, Flat, Delimits, AllBlank, Occur;
    FindIsFlat(before, v, after, keys);
    var ks := Keys(v, |before|, 0);
    var l := Lost(v, |before|, 0, keys);
    if keys == [] {
      LookupAll(v, |before|);
    } else {
      FlatVersusLookup(v, |before|, 0, keys, []);
      assert ks + [] == ks && keys[0..] == keys;
      assert l.behind + [] == l.behind;
      if l.j < |keys| { HitIff(l.behind, l.j, keys); }
    }
  }

  // ----- All paths at once --------------------------------------------------------------------------------

  predicate HasKey(es: Entries, key: string)
    decreases es
  {
    es.Cons? && (es.key == key || HasKey(es.rest, key))
  }

  /** What can be looked up in `v`: its entries if it is an object. */
  function EntriesOf(v: Json): Entries {
    if v.Node? && v.isObject then v.entries else Nil
  }

  /** A key one deeper than `j` that a path can name and `es` lacks, before any key at depth `j`. */
  predicate Lures(ks: seq<KeyInfo>, i: nat, j: nat, es: Entries) {
    && i < |ks| && ks[i].depth == j + 1 && IsPart(ks[i].key) && !HasKey(es, ks[i].key)
    && forall n :: 0 <= n < i ==> ks[n].depth != j
  }

  /**
   No value that a path leads to - through first entries with their keys only - has such a key behind it. `v` is at
   depth `j` and the keys behind it are `behind`.
   */
  predicate Tame(v: Json, at: nat, j: nat, behind: seq<KeyInfo>)
    decreases v, 1
  {
    && (forall i :: 0 <= i < |behind| ==> !Lures(behind, i, j, EntriesOf(v)))
    && (v.Node? && v.isObject ==> TameIn(v.entries, true, at + 1, j, behind, {}))
  }

  predicate TameIn(es: Entries, first: bool, at: nat, j: nat, behind: seq<KeyInfo>, seen: set<string>)
    decreases es, 0
  {
    es == Nil ||
      (var value := at + |Lead(true, first, es)|;
       var next := value + |Text(es.value)|;
       && (es.key !in seen && IsPart(es.key) ==>
             Tame(es.value, value, j + 1, InnerKeys(true, es.rest, false, next, j + 1) + behind))
       && TameIn(es.rest, false, next, j, behind, seen + {es.key}))
  }

  /** `seen` holds the keys of the entries of `all` before `es`. */
  ghost predicate Seen(all: Entries, es: Entries, seen: set<string>) {
    forall key: string :: HasKey(all, key) <==> key in seen || HasKey(es, key)
  }

  lemma SeenNext(all: Entries, es: Entries, seen: set<string>)
    requires es.Cons? && Seen(all, es, seen)
    ensures Seen(all, es.rest, seen + {es.key})
  {}

  /** A part that `es` lacks and that can be taken is a lure. */
  lemma OccurrenceLures(ks: seq<KeyInfo>, j: nat, keys: seq<string>, ps: seq<nat>, es: Entries)
    requires j < |keys| && AreParts(keys) && !HasKey(es, keys[j]) && Occur(ks, 0, j, keys, ps)
    ensures ps != [] && ps[0] < |ks| && Lures(ks, ps[0], j, es)
  {
    hide HasKey, IsPart;
    assert Taken(ks, Begin(ps, 0, 0), ps[0], j + 0, keys);
  }

  /** The parts lost do not occur at the positions `ps` behind the value the lookup has come to. */
  predicate LostForGood(l: Loss, behind: seq<KeyInfo>, keys: seq<string>, ps: seq<nat>) {
    l.j < |keys| ==> !Occur(l.behind + behind, 0, l.j, keys, ps)
  }

  lemma LostMore(l: Loss, rest: seq<KeyInfo>, behind: seq<KeyInfo>, keys: seq<string>, ps: seq<nat>)
    requires LostForGood(l, rest + behind, keys, ps)
    ensures LostForGood(Loss(l.j, l.behind + rest), behind, keys, ps)
  {
    hide Occur;
    assert (l.behind + rest) + behind == l.behind + (rest + behind);
  }

  lemma NothingBehindLures(j: nat, behind: seq<KeyInfo>, keys: seq<string>, ps: seq<nat>, es: Entries)
    requires j < |keys| && AreParts(keys) && !HasKey(es, keys[j])
    requires forall i :: 0 <= i < |behind| ==> !Lures(behind, i, j, es)
    ensures LostForGood(Loss(j, []), behind, keys, ps)
  {
    hide Occur, Lures;
    assert [] + behind == behind;
    if Occur(behind, 0, j, keys, ps) { OccurrenceLures(behind, j, keys, ps, es); }
  }

  lemma {:induction false} TameNeverStrays(v: Json, at: nat, j: nat, behind: seq<KeyInfo>, keys: seq<string>,
                                           ps: seq<nat>)
    requires Tame(v, at, j, behind) && AreParts(keys) && j <= |keys|
    ensures LostForGood(Lost(v, at, j, keys), behind, keys, ps)
    decreases v, 1
  {
    hide Text, Occur, Lures, LostIn, TameIn, AreParts, LostForGood;
    if j == |keys| {
      LostNothing(v, at, keys);
      AllFollowed(j, behind, keys, ps);
    } else if v.Node? && v.isObject {
      assert EntriesOf(v) == v.entries;
      NothingSeen(v.entries);
      TameInNeverStrays(v.entries, v.entries, true, at + 1, j, behind, {}, keys, ps);
    } else {
      assert EntriesOf(v) == Nil;
      NothingBehindLures(j, behind, keys, ps, Nil);
    }
  }

  lemma AllFollowed(j: nat, behind: seq<KeyInfo>, keys: seq<string>, ps: seq<nat>)
    requires j == |keys|
    ensures LostForGood(Loss(j, []), behind, keys, ps)
  {}

  lemma NothingSeen(all: Entries)
    ensures Seen(all, all, {})
  {}

  lemma SeenAll(all: Entries, seen: set<string>, key: string)
    requires Seen(all, Nil, seen) && key !in seen
    ensures !HasKey(all, key)
  {}

  lemma {:induction false} TameInNeverStrays(all: Entries, es: Entries, first: bool, at: nat, j: nat,
                                             behind: seq<KeyInfo>,
                                             seen: set<string>, keys: seq<string>, ps: seq<nat>)
    requires TameIn(es, first, at, j, behind, seen) && AreParts(keys) && j < |keys|
    requires forall i :: 0 <= i < |behind| ==> !Lures(behind, i, j, all)
    requires Seen(all, es, seen) && keys[j] !in seen
    ensures LostForGood(LostIn(es, first, at, j, keys), behind, keys, ps)
    decreases es, 0
  {
    hide Text, Lead, Occur, Lures, Tame, Lost, InnerKeys, Seen, LostForGood;
    if es == Nil {
      SeenAll(all, seen, keys[j]);
      NothingBehindLures(j, behind, keys, ps, all);
    } else {
      var value := at + |Lead(true, first, es)|;
      var next := value + |Text(es.value)|;
      if es.key != keys[j] {
        SeenNext(all, es, seen);
        TameInNeverStrays(all, es.rest, false, next, j, behind, seen + {es.key}, keys, ps);
      } else {
        var rest := InnerKeys(true, es.rest, false, next, j + 1);
        assert IsPart(keys[j]);
        TameNeverStrays(es.value, value, j + 1, rest + behind, keys, ps);
        LostMore(Lost(es.value, value, j + 1, keys), rest, behind, keys, ps);
      }
    }
  }

  /** The lookup of `keys` fails at its last part, which is a lure behind the value it has come to. */
  predicate StraysAtLast(l: Loss, behind: seq<KeyInfo>, keys: seq<string>) {
    l.j + 1 == |keys| && AreParts(keys) && Occur(l.behind + behind, 0, l.j, keys, [Lure(l.behind + behind, l.j, keys)])
  }

  /** The first key for part `j`. */
  function Lure(ks: seq<KeyInfo>, j: nat, keys: seq<string>): (i: nat)
    requires j < |keys|
    ensures i <= |ks| && forall n :: 0 <= n < i ==> !IsNext(ks[n], j, keys)
    ensures i < |ks| ==> IsNext(ks[i], j, keys)
  {
    if ks == [] || IsNext(ks[0], j, keys) then 0 else 1 + Lure(ks[1..], j, keys)
  }

  lemma LureStrays(behind: seq<KeyInfo>, i: nat, j: nat, es: Entries, prefix: seq<string>) returns (keys: seq<string>)
    requires Lures(behind, i, j, es) && |prefix| == j && AreParts(prefix)
    ensures |keys| == j + 1 && prefix <= keys && !HasKey(es, keys[j]) && StraysAtLast(Loss(j, []), behind, keys)
  {
    hide HasKey, IsPart;
    keys := prefix + [behind[i].key];
    assert [] + behind == behind;
    var p := Lure(behind, j, keys);
    assert IsNext(behind[i], j, keys);
    assert Taken(behind, 0, p, j, keys);
  }

  /** What is not tame strays: a path on which the lookup fails and mjson_find does not. */
  lemma {:induction false} WildStrays(v: Json, at: nat, j: nat, behind: seq<KeyInfo>, prefix: seq<string>)
    returns (keys: seq<string>)
    requires !Tame(v, at, j, behind) && |prefix| == j && AreParts(prefix)
    ensures |keys| > j && prefix <= keys && StraysAtLast(Lost(v, at, j, keys), behind, keys)
    decreases v, 1
  {
    hide Text, StraysAtLast, Lures, LostIn, TameIn;
    if i :| 0 <= i < |behind| && Lures(behind, i, j, EntriesOf(v)) {
      keys := LureStrays(behind, i, j, EntriesOf(v), prefix);
      if v.Node? && v.isObject { LostAtOnce(v.entries, true, at + 1, j, keys); }
    } else {
      keys := WildInStrays(v.entries, true, at + 1, j, behind, {}, prefix);
    }
  }

  lemma {:induction false} LostAtOnce(es: Entries, first: bool, at: nat, j: nat, keys: seq<string>)
    requires j < |keys| && !HasKey(es, keys[j])
    ensures LostIn(es, first, at, j, keys) == Loss(j, [])
    decreases es
  {
    hide Text, Lead, InnerKeys, Lost;
    if es != Nil { LostAtOnce(es.rest, false, at + |Lead(true, first, es)| + |Text(es.value)|, j, keys); }
  }

  lemma {:induction false} WildInStrays(es: Entries, first: bool, at: nat, j: nat, behind: seq<KeyInfo>,
                                        seen: set<string>,
                                        prefix: seq<string>) returns (keys: seq<string>)
    requires !TameIn(es, first, at, j, behind, seen) && |prefix| == j && AreParts(prefix)
    ensures |keys| > j && prefix <= keys && keys[j] !in seen
            && StraysAtLast(LostIn(es, first, at, j, keys), behind, keys)
    decreases es, 0
  {
    hide Text, Lead, Tame, Lost, InnerKeys, Occur, Lure, IsPart;
    var value := at + |Lead(true, first, es)|;
    var next := value + |Text(es.value)|;
    var rest := InnerKeys(true, es.rest, false, next, j + 1);
    if es.key !in seen && IsPart(es.key) && !Tame(es.value, value, j + 1, rest + behind) {
      keys := WildStrays(es.value, value, j + 1, rest + behind, prefix + [es.key]);
      assert (prefix + [es.key])[j] == es.key;
      var l := Lost(es.value, value, j + 1, keys);
      assert l.behind + (rest + behind) == (l.behind + rest) + behind;
    } else {
      keys := WildInStrays(es.rest, false, next, j, behind, seen + {es.key}, prefix);
    }
  }

  /** mjson_find is the recursive lookup on every path exactly if the tree is tame. */
  lemma AgreesOnAllPathsIff(before: string, v: Json, after: string)
    requires AllBlank(before) && Valid(v) && Delimits(after) && Depth(v) <= MAX_DEPTH
    ensures Tame(v, |before|, 0, [])
            <==> forall keys: seq<string> :: AreParts(keys) ==>
                   Find(before + Text(v) + after, PathOf(keys)) == Lookup(v, |before|, keys)
  {
    hide Find, Text, Tame, Lookup, Lost, Occur, Lure, Delimits, AllBlank, AreParts, PathOf, Valid;
    var at := |before|;
    if Tame(v, at, 0, []) {
      forall keys: seq<string> | AreParts(keys)
        ensures Find(before + Text(v) + after, PathOf(keys)) == Lookup(v, at, keys)
      {
        FindAgreesIff(before, v, after, keys);
        var l := Lost(v, at, 0, keys);
        assert l.behind + [] == l.behind;
        if ps: seq<nat> :| l.j < |keys| && Occur(l.behind, 0, l.j, keys, ps) {
          TameNeverStrays(v, at, 0, [], keys, ps);
        }
      }
    } else {
      assert AreParts([]) by { NoParts(); }
      var keys := WildStrays(v, at, 0, [], []);
      var l := Lost(v, at, 0, keys);
      assert l.behind + [] == l.behind;
      FindAgreesIff(before, v, after, keys);
    }
  }

  lemma NoParts()
    ensures AreParts([])
  {}

  // ----- When nothing goes astray -------------------------------------------------------------------------

  /** No object with entries anywhere in `v`. */
  predicate KeyFree(v: Json)
    decreases v
  {
    v.Node? ==> (v.isObject ==> v.entries == Nil) && EntriesKeyFree(v.entries)
  }

  predicate EntriesKeyFree(es: Entries)
    decreases es
  {
    es.Cons? ==> KeyFree(es.value) && EntriesKeyFree(es.rest)
  }

  /** Objects nest in objects only: no array holds an object with entries. */
  predicate Plain(v: Json)
    decreases v
  {
    v.Node? ==> if v.isObject then EntriesPlain(v.entries) else EntriesKeyFree(v.entries)
  }

  predicate EntriesPlain(es: Entries)
    decreases es
  {
    es.Cons? ==> Plain(es.value) && EntriesPlain(es.rest)
  }

  /** From one key to the next the depth goes up by at most one; the first is no deeper than `limit`. */
  predicate Gentle(ks: seq<KeyInfo>, limit: nat)
    decreases |ks|
  {
    ks != [] ==> ks[0].depth <= limit && Gentle(ks[1..], ks[0].depth + 1)
  }

  lemma {:induction false} GentleNeverHits(ks: seq<KeyInfo>, j: nat, keys: seq<string>)
    requires j < |keys| && Gentle(ks, j)
    ensures !Flat(ks, j, keys).Hit?
    decreases |ks|
  {
    if ks != [] && ks[0].depth < j { GentleNeverHits(ks[1..], j, keys); }
  }

  lemma {:induction false} GentleAppend(a: seq<KeyInfo>, b: seq<KeyInfo>, limit: nat, base: nat)
    requires Gentle(a, limit) && AllFrom(a, base) && Gentle(b, base) && base <= limit
    ensures Gentle(a + b, limit)
    decreases |a|
  {
    if a == [] {
      assert a + b == b;
    } else {
      assert (a + b)[1..] == a[1..] + b;
      GentleAppend(a[1..], b, a[0].depth + 1, base);
    }
  }

  lemma {:induction false} KeyFreeHasNoKeys(v: Json, at: nat, depth: nat)
    requires KeyFree(v)
    ensures Keys(v, at, depth) == []
    decreases v
  {
    match v
    case Lit(_, _) =>
    case Node(isObject, entries, _) => InnerKeyFree(isObject, entries, true, at + 1, depth + 1);
  }

  lemma {:induction false} InnerKeyFree(isObject: bool, es: Entries, first: bool, at: nat, depth: nat)
    requires (isObject ==> es == Nil) && EntriesKeyFree(es)
    ensures InnerKeys(isObject, es, first, at, depth) == []
    decreases es
  {
    if es != Nil {
      var value := at + |Lead(isObject, first, es)|;
      KeyFreeHasNoKeys(es.value, value, depth);
      InnerKeyFree(isObject, es.rest, false, value + |Text(es.value)|, depth);
    }
  }

  lemma {:induction false} PlainIsGentle(v: Json, at: nat, depth: nat)
    requires Plain(v)
    ensures Gentle(Keys(v, at, depth), depth + 1)
    decreases v
  {
    match v
    case Lit(_, _) =>
    case Node(isObject, entries, _) =>
      if isObject {
        InnerIsGentle(entries, true, at + 1, depth + 1);
      } else {
        InnerKeyFree(false, entries, true, at + 1, depth + 1);
      }
  }

  lemma {:induction false} InnerIsGentle(es: Entries, first: bool, at: nat, depth: nat)
    requires EntriesPlain(es)
    ensures Gentle(InnerKeys(true, es, first, at, depth), depth)
    decreases es
  {
    hide Text, Lead, Keys;
    if es != Nil {
      var value := at + |Lead(true, first, es)|;
      var next := value + |Text(es.value)|;
      var k, ks, rest := KeyOf(true, es, value, depth), Keys(es.value, value, depth),
                         InnerKeys(true, es.rest, false, next, depth);
      PlainIsGentle(es.value, value, depth);
      KeysAreDeep(es.value, value, depth);
      InnerIsGentle(es.rest, false, next, depth);
      GentleAppend(ks, rest, depth + 1, depth);
      assert (k + (ks + rest))[1..] == ks + rest;
    }
  }

  predicate GentleLoss(l: Loss, j: nat) {
    l.j >= j && Gentle(l.behind, l.j) && AllFrom(l.behind, j + 1)
  }

  lemma NoLoss(j: nat)
    ensures GentleLoss(Loss(j, []), j)
  {}

  lemma AllFromAppend(a: seq<KeyInfo>, b: seq<KeyInfo>, d: nat)
    requires AllFrom(a, d) && AllFrom(b, d)
    ensures AllFrom(a + b, d)
  {}

  lemma AllFromLess(a: seq<KeyInfo>, c: nat, d: nat)
    requires AllFrom(a, c) && d <= c
    ensures AllFrom(a, d)
  {}

  lemma LossGrows(l: Loss, rest: seq<KeyInfo>, j: nat)
    requires GentleLoss(l, j + 1) && Gentle(rest, j + 1) && AllFrom(rest, j + 1)
    ensures GentleLoss(Loss(l.j, l.behind + rest), j)
  {
    hide Gentle, AllFrom;
    AllFromLess(l.behind, j + 2, j + 1);
    AllFromAppend(l.behind, rest, j + 1);
    GentleAppend(l.behind, rest, l.j, j + 1);
  }

  lemma {:induction false} LostIsGentle(v: Json, at: nat, j: nat, keys: seq<string>)
    requires Plain(v)
    ensures GentleLoss(Lost(v, at, j, keys), j)
    decreases v
  {
    hide GentleLoss;
    if j < |keys| && v.Node? && v.isObject { LostInIsGentle(v.entries, true, at + 1, j, keys); } else { NoLoss(j); }
  }

  lemma {:induction false} LostInIsGentle(es: Entries, first: bool, at: nat, j: nat, keys: seq<string>)
    requires j < |keys| && EntriesPlain(es)
    ensures GentleLoss(LostIn(es, first, at, j, keys), j)
    decreases es
  {
    hide Text, Lead, Keys, Gentle, AllFrom, InnerKeys, Lost, GentleLoss, Plain;
    NoLoss(j);
    if es != Nil {
      var value := at + |Lead(true, first, es)|;
      var next := value + |Text(es.value)|;
      if es.key != keys[j] {
        LostInIsGentle(es.rest, false, next, j, keys);
      } else {
        LostIsGentle(es.value, value, j + 1, keys);
        InnerIsGentle(es.rest, false, next, j + 1);
        InnerKeysAreDeep(true, es.rest, false, next, j + 1);
        LossGrows(Lost(es.value, value, j + 1, keys), InnerKeys(true, es.rest, false, next, j + 1), j);
      }
    }
  }

  /** Without objects in arrays, mjson_find is the recursive lookup. */
  lemma FindIsLookup(before: string, v: Json, after: string, keys: seq<string>)
    requires AllBlank(before) && Valid(v) && Delimits(after) && Depth(v) <= MAX_DEPTH && AreParts(keys) && Plain(v)
    ensures Find(before + Text(v) + after, PathOf(keys)) == Lookup(v, |before|, keys)
  {
    hide Find, Text, Keys, Flat, Delimits, AllBlank, Lookup, Lost, Occur;
    FindAgreesIff(before, v, after, keys);
    var l := Lost(v, |before|, 0, keys);
    LostIsGentle(v, |before|, 0, keys);
    if l.j < |keys| {
      GentleNeverHits(l.behind, l.j, keys);
      HitIff(l.behind, l.j, keys);
    }
  }

  // ----- A lookup that goes astray ------------------------------------------------------------------------

  function Entry(key: string, value: Json, rest: Entries): Entries {
    Cons([], [], key, [], [], value, rest)
  }

  const FIVE := Node(true, Entry("b", Lit(TOK_NUMBER, "5"), Nil), [])
  const LIST := Node(false, Entry("", FIVE, Nil), [])
  const ONE := Node(true, Entry("a", Lit(TOK_NUMBER, "1"), Nil), [])
  const ASTRAY := Node(true, Entry("x", ONE, Entry("y", LIST, Nil)), [])

  lemma LeadText(isObject: bool, key: string, value: Json, rest: Entries, first: bool)
    ensures Lead(isObject, first, Entry(key, value, rest))
         == (if first then "" else ",") + (if isObject then Quoted(key) + ":" else "")
  {
    hide Text, Inner, Quoted;
    var comma, k := CommaText(first, []), KeyText(isObject, key, []);
    assert comma == if first then "" else ",";
    assert k == if isObject then Quoted(key) + ":" else "";
    assert comma + ([] + (k + [])) == comma + k;
  }

  lemma EntryText(isObject: bool, key: string, value: Json, rest: Entries, first: bool, lead: string, text: string,
                  tail: string)
    requires lead == (if first then "" else ",") + (if isObject then Quoted(key) + ":" else "")
    requires Text(value) == text && Inner(isObject, rest, false, []) == tail
    ensures Lead(isObject, first, Entry(key, value, rest)) == lead
    ensures Inner(isObject, Entry(key, value, rest), first, []) == lead + (text + tail)
  {
    hide Text, Lead;
    LeadText(isObject, key, value, rest, first);
  }

  lemma NodeText(isObject: bool, es: Entries, inner: string)
    requires Inner(isObject, es, true, []) == inner
    ensures Text(Node(isObject, es, [])) == [Open(isObject)] + inner
  {}

  lemma NilText(isObject: bool)
    ensures Inner(isObject, Nil, false, []) == [Closing(isObject)]
  {}

  lemma DigitText(c: char)
    ensures Text(Lit(TOK_NUMBER, [c])) == [c]
  {}

  lemma ListText()
    ensures Text(FIVE) == "{\"b\":5}" && Text(LIST) == "[{\"b\":5}]"
  {
    hide Text, Inner, Lead;
    var five := Lit(TOK_NUMBER, "5");
    DigitText('5');
    NilText(true);
    NilText(false);
    EntryText(true, "b", five, Nil, true, "\"b\":", "5", "}");
    NodeText(true, Entry("b", five, Nil), "\"b\":5}");
    EntryText(false, "", FIVE, Nil, true, "", "{\"b\":5}", "]");
    NodeText(false, Entry("", FIVE, Nil), "{\"b\":5}]");
  }

  lemma OneText()
    ensures Text(ONE) == "{\"a\":1}"
  {
    hide Text, Inner, Lead;
    var one := Lit(TOK_NUMBER, "1");
    DigitText('1');
    NilText(true);
    EntryText(true, "a", one, Nil, true, "\"a\":", "1", "}");
    NodeText(true, Entry("a", one, Nil), "\"a\":1}");
  }

  lemma AstrayInner()
    ensures Inner(true, Entry("y", LIST, Nil), false, []) == ",\"y\":[{\"b\":5}]}"
  {
    hide Text, Inner, Lead;
    ListText();
    NilText(true);
    EntryText(true, "y", LIST, Nil, false, ",\"y\":", "[{\"b\":5}]", "}");
  }

  lemma AstrayEntries()
    ensures Inner(true, Entry("x", ONE, Entry("y", LIST, Nil)), true, []) == "\"x\":{\"a\":1},\"y\":[{\"b\":5}]}"
  {
    hide Text, Inner, Lead;
    AstrayInner();
    OneText();
    EntryText(true, "x", ONE, Entry("y", LIST, Nil), true, "\"x\":", "{\"a\":1}", ",\"y\":[{\"b\":5}]}");
  }

  lemma AstrayText()
    ensures Text(ASTRAY) == "{\"x\":{\"a\":1},\"y\":[{\"b\":5}]}"
  {
    hide Text, Inner, Lead;
    AstrayEntries();
    NodeText(true, Entry("x", ONE, Entry("y", LIST, Nil)), "\"x\":{\"a\":1},\"y\":[{\"b\":5}]}");
  }

  lemma AstrayKeys()
    ensures Keys(ASTRAY, 0, 0)
         == [KeyInfo(1, "x", TOK_OBJECT, 5, 7), KeyInfo(2, "a", TOK_NUMBER, 10, 1), KeyInfo(1, "y", TOK_ARRAY, 17, 9),
             KeyInfo(3, "b", TOK_NUMBER, 23, 1)]
    ensures Lookup(ASTRAY, 0, ["x", "a", "b"]) == NotFound
  {
    var five, one := Lit(TOK_NUMBER, "5"), Lit(TOK_NUMBER, "1");
    ListText();
    OneText();
    LeadText(true, "b", five, Nil, true);
    LeadText(false, "", FIVE, Nil, true);
    LeadText(true, "a", one, Nil, true);
    LeadText(true, "y", LIST, Nil, false);
    LeadText(true, "x", ONE, Entry("y", LIST, Nil), true);
    assert |Text(five)| == 1 && |Text(one)| == 1;
    hide Text, Lead;
    assert InnerKeys(true, Entry("b", five, Nil), true, 19, 3) == [KeyInfo(3, "b", TOK_NUMBER, 23, 1)];
    assert InnerKeys(false, Entry("", FIVE, Nil), true, 18, 2) == [KeyInfo(3, "b", TOK_NUMBER, 23, 1)];
    assert InnerKeys(true, Entry("a", one, Nil), true, 6, 2) == [KeyInfo(2, "a", TOK_NUMBER, 10, 1)];
    assert InnerKeys(true, Entry("y", LIST, Nil), false, 12, 1)
           == [KeyInfo(1, "y", TOK_ARRAY, 17, 9), KeyInfo(3, "b", TOK_NUMBER, 23, 1)];
    assert ["x", "a", "b"][1..] == ["a", "b"] && ["a", "b"][1..] == ["b"];
    assert Lookup(one, 10, ["b"]) == NotFound;
    assert LookupIn(Entry("a", one, Nil), true, 6, ["a", "b"]) == NotFound;
  }

  lemma AstrayPass(ks: seq<KeyInfo>)
    requires ks == [KeyInfo(1, "x", TOK_OBJECT, 5, 7), KeyInfo(2, "a", TOK_NUMBER, 10, 1),
             KeyInfo(1, "y", TOK_ARRAY, 17, 9), KeyInfo(3, "b", TOK_NUMBER, 23, 1)]
    ensures Flat(ks, 0, ["x", "a", "b"]) == Hit(TOK_NUMBER, 23, 1)
  {
    var keys := ["x", "a", "b"];
    assert ks[1..][1..] == ks[2..] && ks[2..][1..] == ks[3..] && ks[3..][1..] == ks[4..];
    assert Flat(ks[3..], 2, keys) == Hit(TOK_NUMBER, 23, 1);
    assert Flat(ks[2..], 2, keys) == Flat(ks[3..], 2, keys);
    assert Flat(ks[1..], 1, keys) == Flat(ks[2..], 2, keys);
  }

  lemma AstrayPath()
    ensures PathOf(["x", "a", "b"]) == "$.x.a.b"
  {
    var x, a, b := Name("x"), Name("a"), Name("b");
    assert KeyParts(["x", "a", "b"]) == [x, a, b];
    assert [a, b][1..] == [b] && [x, a, b][1..] == [a, b];
    assert PartsText([b]) == ".b" && PartsText([a, b]) == ".a.b" && PartsText([x, a, b]) == ".x.a.b";
  }

  /** The lookup of $.x.a.b in {"x":{"a":1},"y":[{"b":5}]} should fail, but finds the 5. */
  lemma FindGoesAstray()
    ensures Find("{\"x\":{\"a\":1},\"y\":[{\"b\":5}]}", "$.x.a.b") == Found(12, 23, 1)
    ensures Lookup(ASTRAY, 0, ["x", "a", "b"]) == NotFound
  {
    hide Find, Lookup, Keys, Flat, Text, PathOf, Valid, Depth;
    var keys := ["x", "a", "b"];
    AstrayText();
    AstrayKeys();
    AstrayIsValid();
    AstrayPath();
    AstrayPass(Keys(ASTRAY, 0, 0));
    FindIsFlat([], ASTRAY, [], keys);
    assert [] + Text(ASTRAY) + [] == Text(ASTRAY);
  }

  lemma EntryIsValid(isObject: bool, key: string, value: Json, rest: Entries)
    requires Body(key) && Valid(value) && ValidEntries(isObject, rest)
    ensures ValidEntries(isObject, Entry(key, value, rest))
    ensures EntriesDepth(Entry(key, value, rest)) == Max(Depth(value), EntriesDepth(rest))
  {}

  lemma NodeIsValid(isObject: bool, es: Entries)
    requires ValidEntries(isObject, es)
    ensures Valid(Node(isObject, es, [])) && Depth(Node(isObject, es, [])) == 1 + EntriesDepth(es)
  {}

  lemma DigitIsValid(c: char)
    requires Digit(c)
    ensures Valid(Lit(TOK_NUMBER, [c])) && Depth(Lit(TOK_NUMBER, [c])) == 0
  {
    OneDigit([c]);
  }

  lemma ListIsValid()
    ensures Valid(LIST) && Depth(LIST) == 2
  {
    hide Body, Valid, Number, Depth;
    OneLetter("b");
    EmptyKey();
    DigitIsValid('5');
    EntryIsValid(true, "b", Lit(TOK_NUMBER, "5"), Nil);
    NodeIsValid(true, Entry("b", Lit(TOK_NUMBER, "5"), Nil));
    EntryIsValid(false, "", FIVE, Nil);
    NodeIsValid(false, Entry("", FIVE, Nil));
  }

  lemma AstrayIsValid()
    ensures Valid(ASTRAY) && Depth(ASTRAY) == 3
  {
    hide Body, Valid, Number, Depth;
    OneLetter("a");
    OneLetter("x");
    OneLetter("y");
    DigitIsValid('1');
    EntryIsValid(true, "a", Lit(TOK_NUMBER, "1"), Nil);
    NodeIsValid(true, Entry("a", Lit(TOK_NUMBER, "1"), Nil));
    ListIsValid();
    EntryIsValid(true, "y", LIST, Nil);
    EntryIsValid(true, "x", ONE, Entry("y", LIST, Nil));
    NodeIsValid(true, Entry("x", ONE, Entry("y", LIST, Nil)));
  }

  lemma EmptyKey()
    ensures Body("")
  {}

  lemma OneDigit(t: string)
    requires |t| == 1 && Digit(t[0])
    ensures Number(t)
  {
    JsonNumberIsNumber(t, "", t, "", "");
  }

  lemma OneLetter(t: string)
    requires |t| == 1 && t[0] != QUOTE && t[0] != BACKSLASH && t[0] != NUL
    ensures Body(t)
  {}
}

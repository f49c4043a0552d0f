/**
 What mjson_find finds on paths with array indices, compared with the lookup by element number (libs/mjson.c): it finds
 whatever the lookup finds, and can also find something where the lookup fails. The module says exactly when.
 */
module MjsonElements {
  import opened MjsonText
  import opened MjsonScanner
  import opened MjsonFind
  import opened MjsonPath
  import opened MjsonMarks
  import opened Wrappers
  import K = MjsonKeys
  import L = MjsonLookup

  // ----- The lookup by keys and element numbers -----------------------------------------------------------

  /** Is entry number `n`, with this key if it is one of an object, the one for this part of the path? */
  predicate IsFor(key: string, n: nat, p: Part) {
    match p
    case Name(k) => key == k
    case Index(m) => n == m
  }

  /**
   The value at the end of the path: in objects the first entry with the key, in arrays the element of that number.
   */
  function Reach(v: Json, at: nat, parts: seq<Part>): Found
    decreases v
  {
    if parts == [] then Here(v, at)
    else match v
      case Lit(_, _) => NotFound
      case Node(isObject, entries, _) =>
        if isObject == parts[0].Name? then ReachIn(isObject, entries, 0, at + 1, parts) else NotFound
  }

  /** The same among the entries from number `n` on. */
  function ReachIn(isObject: bool, es: Entries, n: nat, at: nat, parts: seq<Part>): Found
    requires parts != []
    decreases es
  {
    if es == Nil then NotFound
    else
      var value := at + |Lead(isObject, n == 0, es)|;
      if IsFor(es.key, n, parts[0]) then Reach(es.value, value, parts[1..])
      else ReachIn(isObject, es.rest, n + 1, value + |Text(es.value)|, parts)
  }

  /** On a path of keys this is the lookup by keys. */
  lemma {:induction false} ReachOfKeys(v: Json, at: nat, keys: seq<string>)
    ensures Reach(v, at, K.KeyParts(keys)) == L.Lookup(v, at, keys)
    decreases v
  {
    hide Text;
    if keys != [] && v.Node? && v.isObject { ReachInOfKeys(v.entries, 0, at + 1, keys); }
  }

  lemma {:induction false} ReachInOfKeys(es: Entries, n: nat, at: nat, keys: seq<string>)
    requires keys != []
    ensures ReachIn(true, es, n, at, K.KeyParts(keys)) == L.LookupIn(es, n == 0, at, keys)
    decreases es
  {
    hide Text, Lead;
    if es != Nil {
      var value := at + |Lead(true, n == 0, es)|;
      assert K.KeyParts(keys)[1..] == K.KeyParts(keys[1..]);
      if es.key == keys[0] {
        ReachOfKeys(es.value, value, keys[1..]);
      } else {
        ReachInOfKeys(es.rest, n + 1, value + |Text(es.value)|, keys);
      }
    }
  }

  // ----- Where a lookup fails -----------------------------------------------------------------------------

  /**
   `j` parts could be followed; `behind` is what stands in the text behind the value that had been come to, and
   `count` how many commas of it were counted in search of an element.
   */
  datatype Miss = Miss(j: nat, count: nat, behind: seq<Mark>)

  function Missed(v: Json, at: nat, j: nat, parts: seq<Part>): (m: Option<Miss>)
    requires j <= |parts|
    ensures m.Some? ==> m.value.j <= |parts|
    decreases v
  {
    if j == |parts| then None
    else if v.Node? && v.isObject == parts[j].Name? then MissedIn(v.isObject, v.entries, 0, at + 1, j, parts)
    else Some(Miss(j, Fresh(j, parts), []))
  }

  function MissedIn(isObject: bool, es: Entries, n: nat, at: nat, j: nat, parts: seq<Part>): (m: Option<Miss>)
    requires j < |parts|
    ensures m.Some? ==> m.value.j <= |parts|
    decreases es
  {
    if es == Nil then Some(TooShort(n, j, parts))
    else
      var value := at + |Lead(isObject, n == 0, es)|;
      var next := value + |Text(es.value)|;
      if !IsFor(es.key, n, parts[j]) then MissedIn(isObject, es.rest, n + 1, next, j, parts)
      else Extended(Missed(es.value, value, j + 1, parts), InnerMarks(isObject, es.rest, false, next, j + 1))
  }

  /** With `rest` in the text behind. */
  function Extended(m: Option<Miss>, rest: seq<Mark>): Option<Miss> {
    match m case None => None case Some(miss) => Some(miss.(behind := miss.behind + rest))
  }

  /**
   Only `n` entries. The element 0 of an empty array counts as found, so the search goes on for what it should hold.
   */
  function TooShort(n: nat, j: nat, parts: seq<Part>): (m: Miss)
    requires j < |parts|
    ensures m.j <= |parts|
  {
    match parts[j]
    case Name(_) => Miss(j, Fresh(j, parts), [])
    case Index(m) => if m == 0 then Miss(j + 1, Fresh(j + 1, parts), []) else Miss(j, Passed(n), [])
  }

  /** The commas in front of entry number `n` that have been counted when it begins, or the entries end. */
  function Passed(n: nat): nat {
    if n == 0 then 0 else n - 1
  }

  // ----- The pass and the lookup --------------------------------------------------------------------------

  /** Marks that change nothing while part `j` is searched for. */
  predicate Far(ms: seq<Mark>, j: nat) {
    forall i :: 0 <= i < |ms| ==> ms[i].Holds? || ms[i].depth >= j + 2
  }

  lemma {:induction false} FarPasses(ms: seq<Mark>, j: nat, count: nat, parts: seq<Part>)
    requires j < |parts| && Far(ms, j)
    ensures Track(ms, j, count, parts) == Seeking(j, count)
    decreases |ms|
  {
    if ms != [] { FarPasses(ms[1..], j, count, parts); }
  }

  lemma FarAppend(a: seq<Mark>, b: seq<Mark>, j: nat)
    requires Far(a, j) && Far(b, j)
    ensures Far(a + b, j)
  {}

  lemma {:induction false} MarksAreFar(v: Json, at: nat, depth: nat, j: nat)
    requires depth >= j + 1
    ensures Far(Marks(v, at, depth), j)
    decreases v
  {
    hide Text, Marks, InnerMarks;
    MarksOf(v, at, depth);
    if v.Node? {
      var opening, inner := Opening(v.isObject, depth + 1), InnerMarks(v.isObject, v.entries, true, at + 1, depth + 1);
      InnerMarksAreFar(v.isObject, v.entries, true, at + 1, depth + 1, j);
      assert Far(opening, j);
      FarAppend(opening, inner, j);
      FarAppend([Holds(depth, Here(v, at))], opening + inner, j);
    }
  }

  lemma {:induction false} InnerMarksAreFar(isObject: bool, es: Entries, first: bool, at: nat, depth: nat, j: nat)
    requires depth >= j + 2
    ensures Far(InnerMarks(isObject, es, first, at, depth), j)
    decreases es
  {
    hide Text, Lead, Marks, InnerMarks;
    InnerMarksSplit(isObject, es, first, at, depth);
    if es != Nil {
      var value := at + |Lead(isObject, first, es)|;
      var next := value + |Text(es.value)|;
      var lead, rest := LeadMarks(isObject, first, es.key, depth), InnerMarks(isObject, es.rest, false, next, depth);
      MarksAreFar(es.value, value, depth, j);
      InnerMarksAreFar(isObject, es.rest, false, next, depth, j);
      assert Far(lead, j);
      hide Far, LeadMarks;
      FarAppend(Marks(es.value, value, depth), rest, j);
      FarAppend(lead, Marks(es.value, value, depth) + rest, j);
    }
  }

  /** A value that has come up in vain. */
  lemma ValuePasses(v: Json, at: nat, more: seq<Mark>, j: nat, count: nat, parts: seq<Part>)
    requires j < |parts|
    ensures Track(Marks(v, at, j + 1) + more, j, count, parts) == Track(more, j, count, parts)
  {
    hide Track, Marks, Far;
    MarksAreFar(v, at, j + 1, j);
    FarPasses(Marks(v, at, j + 1), j, count, parts);
    TrackAppend(Marks(v, at, j + 1), more, j, count, parts);
  }

  /** The course found what the lookup found, or goes on behind the value at which the lookup failed. */
  predicate AgreesUpTo(r: Course, f: Found, m: Option<Miss>, more: seq<Mark>, parts: seq<Part>) {
    match m
    case None => f.Found? && r == Arrived(f)
    case Some(miss) => f.NotFound? && miss.j <= |parts| && r == Track(miss.behind + more, miss.j, miss.count, parts)
  }

  lemma GoesOn(j: nat, count: nat, more: seq<Mark>, parts: seq<Part>)
    requires j <= |parts|
    ensures AgreesUpTo(Track(more, j, count, parts), NotFound, Some(Miss(j, count, [])), more, parts)
  {
    hide Track;
    assert [] + more == more;
  }

  lemma AgreesBehind(r: Course, f: Found, m: Option<Miss>, rest: seq<Mark>, more: seq<Mark>, parts: seq<Part>)
    requires AgreesUpTo(r, f, m, rest + more, parts)
    ensures AgreesUpTo(r, f, Extended(m, rest), more, parts)
  {
    hide Track;
    if m.Some? { assert m.value.behind + (rest + more) == (m.value.behind + rest) + more; }
  }

  lemma LeadCourse(isObject: bool, n: nat, key: string, j: nat, parts: seq<Part>)
    requires j < |parts| && isObject == parts[j].Name? && (parts[j].Index? ==> n <= parts[j].n && 0 < parts[j].n)
    ensures Track(LeadMarks(isObject, n == 0, key, j + 1), j, CountAtEntry(n, j, parts), parts)
         == if IsFor(key, n, parts[j]) then Seeking(j + 1, Fresh(j + 1, parts))
            else Seeking(j, CountAtEntry(n + 1, j, parts))
  {
    var count := CountAtEntry(n, j, parts);
    TrackAppend(CommaMarks(n == 0, j + 1), KeyMarks(isObject, key, j + 1), j, count, parts);
    if n == 0 { TrackNone(j, count, parts); } else { TrackSingle(Comma(j + 1), j, count, parts); }
    var r := Track(CommaMarks(n == 0, j + 1), j, count, parts);
    if isObject { TrackSingle(Names(j + 1, key), r.j, r.count, parts); } else { TrackNone(r.j, r.count, parts); }
  }

  /** The count when entry number `n` of a value that fits part `j` begins. */
  function CountAtEntry(n: nat, j: nat, parts: seq<Part>): nat
    requires j < |parts|
  {
    if parts[j].Index? then Passed(n) else 0
  }

  /** An array where a key is due, or an object where an element is. */
  lemma {:induction false} InnerIdle(isObject: bool, es: Entries, first: bool, at: nat, j: nat, parts: seq<Part>)
    requires j < |parts| && isObject != parts[j].Name?
    ensures Track(InnerMarks(isObject, es, first, at, j + 1), j, Fresh(j, parts), parts) == Seeking(j, Fresh(j, parts))
    decreases es
  {
    hide Track, Marks, InnerMarks, Text, Lead, LeadMarks;
    var count := Fresh(j, parts);
    InnerMarksSplit(isObject, es, first, at, j + 1);
    TrackNone(j, count, parts);
    if es != Nil {
      var value := at + |Lead(isObject, first, es)|;
      var rest := InnerMarks(isObject, es.rest, false, value + |Text(es.value)|, j + 1);
      IdleLead(isObject, first, es.key, j, parts);
      TrackAppend(LeadMarks(isObject, first, es.key, j + 1), Marks(es.value, value, j + 1) + rest, j, count, parts);
      ValuePasses(es.value, value, rest, j, count, parts);
      InnerIdle(isObject, es.rest, false, value + |Text(es.value)|, j, parts);
    }
  }

  lemma IdleLead(isObject: bool, first: bool, key: string, j: nat, parts: seq<Part>)
    requires j < |parts| && isObject != parts[j].Name?
    ensures Track(LeadMarks(isObject, first, key, j + 1), j, Fresh(j, parts), parts) == Seeking(j, Fresh(j, parts))
  {
    var count := Fresh(j, parts);
    TrackAppend(CommaMarks(first, j + 1), KeyMarks(isObject, key, j + 1), j, count, parts);
    if first { TrackNone(j, count, parts); } else { TrackSingle(Comma(j + 1), j, count, parts); }
    if isObject { TrackSingle(Names(j + 1, key), j, count, parts); } else { TrackNone(j, count, parts); }
  }

  lemma Regroup<T>(a: seq<T>, b: seq<T>, c: seq<T>, d: seq<T>)
    ensures (a + (b + c)) + d == a + (b + (c + d))
  {}

  /** The pass finds what the lookup finds; where the lookup fails, the pass goes on behind. */
  lemma {:induction false} TrackVersusReach(v: Json, at: nat, j: nat, parts: seq<Part>, more: seq<Mark>)
    requires j <= |parts|
    ensures AgreesUpTo(Track(Marks(v, at, j) + more, j, Fresh(j, parts), parts), Reach(v, at, parts[j..]),
                       Missed(v, at, j, parts), more, parts)
    decreases v
  {
    hide Track, Marks, InnerMarks, ReachIn, MissedIn, Text;
    if j == |parts| {
      ValueArrives(v, at, more, Fresh(j, parts), parts);
      ReachHere(v, at);
    } else {
      MarksOf(v, at, j);
      match v
      case Lit(_, _) =>
        assert [Holds(j, Here(v, at))] + [] == [Holds(j, Here(v, at))] && [] + more == more;
        HoldsMark(v, at, j, more, j, Fresh(j, parts), parts);
      case Node(isObject, entries, _) =>
        var opening, inner := Opening(isObject, j + 1), InnerMarks(isObject, entries, true, at + 1, j + 1);
        Regroup([Holds(j, Here(v, at))], opening, inner, more);
        HoldsMark(v, at, j, opening + (inner + more), j, Fresh(j, parts), parts);
        NodeVersusReach(isObject, entries, at + 1, j, parts, more);
        assert [] + more == more;
    }
  }

  lemma ReachHere(v: Json, at: nat)
    ensures Reach(v, at, []) == Here(v, at)
  {}

  /** What `Reach` and `Missed` say of a value with these entries while part `j` is due. */
  function ReachBelow(isObject: bool, es: Entries, at: nat, j: nat, parts: seq<Part>): Found
    requires j < |parts|
  {
    if isObject == parts[j].Name? then ReachIn(isObject, es, 0, at, parts[j..]) else NotFound
  }

  function MissedBelow(isObject: bool, es: Entries, at: nat, j: nat, parts: seq<Part>): Option<Miss>
    requires j < |parts|
  {
    if isObject == parts[j].Name? then MissedIn(isObject, es, 0, at, j, parts) else Some(Miss(j, Fresh(j, parts), []))
  }

  lemma {:induction false} NodeVersusReach(isObject: bool, es: Entries, at: nat, j: nat, parts: seq<Part>,
                                           more: seq<Mark>)
    requires j < |parts|
    ensures var marks := Opening(isObject, j + 1) + (InnerMarks(isObject, es, true, at, j + 1) + more);
            AgreesUpTo(Track(marks, j, Fresh(j, parts), parts), ReachBelow(isObject, es, at, j, parts),
                       MissedBelow(isObject, es, at, j, parts), more, parts)
    decreases es, 2
  {
    hide Track, Marks, InnerMarks, ReachIn, MissedIn, Text, AgreesUpTo;
    var count, opening, inner := Fresh(j, parts), Opening(isObject, j + 1), InnerMarks(isObject, es, true, at, j + 1);
    TrackAppend(opening, inner + more, j, count, parts);
    if isObject { TrackNone(j, count, parts); } else { TrackSingle(Opens(j + 1), j, count, parts); }
    if isObject != parts[j].Name? {
      InnerIdle(isObject, es, true, at, j, parts);
      TrackAppend(inner, more, j, count, parts);
      GoesOn(j, count, more, parts);
    } else if parts[j].Index? && parts[j].n == 0 {
      FirstElement(es, at, j, parts, more);
    } else {
      InnerVersusReach(isObject, es, 0, at, j, parts, more);
    }
  }

  /** No comma stands in front of the first element. */
  lemma FirstMarks(es: Entries, at: nat, depth: nat, more: seq<Mark>)
    requires es.Cons?
    ensures var value := at + |Lead(false, true, es)|;
            InnerMarks(false, es, true, at, depth) + more
            == Marks(es.value, value, depth)
               + (InnerMarks(false, es.rest, false, value + |Text(es.value)|, depth) + more)
  {
    hide Marks, Text, Lead, InnerMarks;
    var value := at + |Lead(false, true, es)|;
    var marks, rest := Marks(es.value, value, depth), InnerMarks(false, es.rest, false, value + |Text(es.value)|,
                       depth);
    InnerMarksSplit(false, es, true, at, depth);
    Regroup(LeadMarks(false, true, es.key, depth), marks, rest, more);
    assert LeadMarks(false, true, es.key, depth) == [];
  }

  /** The entry that is due has come up. */
  lemma {:induction false} EntryReached(isObject: bool, es: Entries, n: nat, at: nat, j: nat, parts: seq<Part>,
                                        more: seq<Mark>)
    requires j < |parts| && es.Cons? && IsFor(es.key, n, parts[j])
    ensures var value := at + |Lead(isObject, n == 0, es)|;
            var rest := InnerMarks(isObject, es.rest, false, value + |Text(es.value)|, j + 1);
            AgreesUpTo(Track(Marks(es.value, value, j + 1) + (rest + more), j + 1, Fresh(j + 1, parts), parts),
                       ReachIn(isObject, es, n, at, parts[j..]), MissedIn(isObject, es, n, at, j, parts), more, parts)
    decreases es, 0
  {
    hide Track, Marks, InnerMarks, Text, Lead, Reach, Missed, AgreesUpTo, Fresh;
    var value := at + |Lead(isObject, n == 0, es)|;
    var rest := InnerMarks(isObject, es.rest, false, value + |Text(es.value)|, j + 1);
    assert parts[j..][1..] == parts[j + 1..];
    TrackVersusReach(es.value, value, j + 1, parts, rest + more);
    AgreesBehind(Track(Marks(es.value, value, j + 1) + (rest + more), j + 1, Fresh(j + 1, parts), parts),
                 Reach(es.value, value, parts[j + 1..]), Missed(es.value, value, j + 1, parts), rest, more, parts);
  }

  /** Index 0 is matched where the array opens. */
  lemma {:induction false} FirstElement(es: Entries, at: nat, j: nat, parts: seq<Part>, more: seq<Mark>)
    requires j < |parts| && parts[j] == Index(0)
    ensures AgreesUpTo(Track(InnerMarks(false, es, true, at, j + 1) + more, j + 1, Fresh(j + 1, parts), parts),
                       ReachIn(false, es, 0, at, parts[j..]), MissedIn(false, es, 0, at, j, parts), more, parts)
    decreases es, 1
  {
    hide Track, Marks, Text, Lead, Reach, Missed, AgreesUpTo;
    if es == Nil {
      GoesOn(j + 1, Fresh(j + 1, parts), more, parts);
      assert [] + more == more;
    } else {
      hide InnerMarks, ReachIn, MissedIn;
      FirstMarks(es, at, j + 1, more);
      EntryReached(false, es, 0, at, j, parts, more);
    }
  }

  lemma {:induction false} InnerVersusReach(isObject: bool, es: Entries, n: nat, at: nat, j: nat, parts: seq<Part>,
                                            more: seq<Mark>)
    requires j < |parts| && isObject == parts[j].Name? && (parts[j].Index? ==> n <= parts[j].n && 0 < parts[j].n)
    ensures AgreesUpTo(Track(InnerMarks(isObject, es, n == 0, at, j + 1) + more, j, CountAtEntry(n, j, parts), parts),
                       ReachIn(isObject, es, n, at, parts[j..]), MissedIn(isObject, es, n, at, j, parts), more, parts)
    decreases es, 1
  {
    hide Track, Marks, Text, Lead, Reach, Missed, LeadMarks, AgreesUpTo, CountAtEntry, InnerMarks, IsFor;
    var count := CountAtEntry(n, j, parts);
    InnerMarksSplit(isObject, es, n == 0, at, j + 1);
    if es == Nil {
      NoEntries(n, at, isObject, j, parts);
      GoesOn(j, count, more, parts);
      assert [] + more == more;
    } else {
      var value := at + |Lead(isObject, n == 0, es)|;
      var next := value + |Text(es.value)|;
      var lead, marks := LeadMarks(isObject, n == 0, es.key, j + 1), Marks(es.value, value, j + 1);
      var rest := InnerMarks(isObject, es.rest, false, next, j + 1);
      Regroup(lead, marks, rest, more);
      LeadCourse(isObject, n, es.key, j, parts);
      TrackAppend(lead, marks + (rest + more), j, count, parts);
      if IsFor(es.key, n, parts[j]) {
        hide ReachIn, MissedIn;
        EntryReached(isObject, es, n, at, j, parts, more);
      } else {
        NotYet(es.key, n, parts[j]);
        ValuePasses(es.value, value, rest + more, j, CountAtEntry(n + 1, j, parts), parts);
        InnerVersusReach(isObject, es.rest, n + 1, next, j, parts, more);
      }
    }
  }

  lemma NotYet(key: string, n: nat, p: Part)
    requires !IsFor(key, n, p) && (p.Index? ==> n <= p.n)
    ensures p.Index? ==> n + 1 <= p.n
  {}

  lemma NoEntries(n: nat, at: nat, isObject: bool, j: nat, parts: seq<Part>)
    requires j < |parts| && isObject == parts[j].Name? && (parts[j].Index? ==> 0 < parts[j].n)
    ensures ReachIn(isObject, Nil, n, at, parts[j..]) == NotFound
    ensures MissedIn(isObject, Nil, n, at, j, parts) == Some(Miss(j, CountAtEntry(n, j, parts), []))
  {}

  // ----- The remaining parts among the marks behind -------------------------------------------------------

  /**
   A mark that is taken for part `j`: for a name the key itself, for index 0 an array that opens, for a larger index the
   comma that completes the count; each one bracket deeper than there are parts in front.
   */
  predicate IsNext(m: Mark, j: nat, count: nat, parts: seq<Part>)
    requires j < |parts|
  {
    match parts[j]
    case Name(k) => m == Names(j + 1, k)
    case Index(n) => if n == 0 then m == Opens(j + 1) else m == Comma(j + 1) && count + 1 == n
  }

  /** An array that opens at that depth starts the count; the commas there are counted, also those of objects. */
  function Recount(m: Mark, j: nat, count: nat, parts: seq<Part>): nat
    requires j < |parts|
  {
    if parts[j].Name? then count
    else if m == Opens(j + 1) then 0
    else if m == Comma(j + 1) && count < parts[j].n then count + 1
    else count
  }

  /** The count at position `p`. */
  function CountAt(ms: seq<Mark>, from: nat, p: nat, j: nat, count: nat, parts: seq<Part>): nat
    requires from <= p <= |ms| && j < |parts|
    decreases p - from
  {
    if from == p then count else CountAt(ms, from + 1, p, j, Recount(ms[from], j, count, parts), parts)
  }

  /** From position `from` on, the first key at depth `j` or mark for part `j` is one for the part, at position `p`. */
  predicate Taken(ms: seq<Mark>, from: nat, p: nat, j: nat, count: nat, parts: seq<Part>)
    requires j < |parts|
  {
    && from <= p < |ms| && IsNext(ms[p], j, CountAt(ms, from, p, j, count, parts), parts)
    && forall n :: from <= n < p
         ==> !IsNext(ms[n], j, CountAt(ms, from, n, j, count, parts), parts) && !(ms[n].Names? && ms[n].depth == j)
  }

  /** The first key or value at the depth of the whole path is a value, at position `p`. */
  predicate Ends(ms: seq<Mark>, from: nat, p: nat, parts: seq<Part>) {
    && from <= p < |ms| && ms[p].Holds? && ms[p].depth == |parts|
    && forall n :: from <= n < p ==> ms[n].depth == |parts| ==> !ms[n].Holds? && !ms[n].Names?
  }

  /** Where the search for the i-th of the remaining parts begins, and the count then. */
  function Begin(ps: seq<nat>, from: nat, i: nat): nat
    requires i <= |ps|
  {
    if i == 0 then from else ps[i - 1] + 1
  }

  function Start(j: nat, i: nat, count: nat, parts: seq<Part>): nat {
    if i == 0 then count else Fresh(j + i, parts)
  }

  /**
   The parts from `j` on occur one behind the other among the marks, at the positions `ps`, and a value at the last of
   them; between two of them there is neither a key at the depth already reached nor a mark for the next part.
   */
  predicate Occur(ms: seq<Mark>, from: nat, j: nat, count: nat, parts: seq<Part>, ps: seq<nat>)
    requires j <= |parts|
  {
    var n := |parts| - j;
    && |ps| == n + 1
    && (forall i :: 0 <= i < n ==> Taken(ms, Begin(ps, from, i), ps[i], j + i, Start(j, i, count, parts), parts))
    && Ends(ms, Begin(ps, from, n), ps[n], parts)
  }

  /** Where the search for the i-th part begins is the same with and without the position in front. */
  lemma Shifted(ps: seq<nat>, from: nat, i: nat, j: nat, count: nat, parts: seq<Part>)
    requires i + 1 < |ps|
    ensures Begin(ps[1..], ps[0] + 1, i) == Begin(ps, from, i + 1) && ps[1..][i] == ps[i + 1]
    ensures Start(j + 1, i, Fresh(j + 1, parts), parts) == Start(j, i + 1, count, parts)
  {
    hide Fresh;
  }

  lemma OccurCut(ms: seq<Mark>, from: nat, j: nat, count: nat, parts: seq<Part>, ps: seq<nat>)
    requires j < |parts| && ps != [] && Occur(ms, from, j, count, parts, ps)
    ensures Taken(ms, from, ps[0], j, count, parts) && Occur(ms, ps[0] + 1, j + 1, Fresh(j + 1, parts), parts, ps[1..])
  {
    hide Taken, Ends, Fresh;
    var more, n, begun := ps[1..], |parts| - j, Fresh(j + 1, parts);
    assert Taken(ms, Begin(ps, from, 0), ps[0], j + 0, Start(j, 0, count, parts), parts);
    forall i | 0 <= i < n - 1
      ensures Taken(ms, Begin(more, ps[0] + 1, i), more[i], j + 1 + i, Start(j + 1, i, begun, parts), parts)
    {
      Shifted(ps, from, i, j, count, parts);
      assert Taken(ms, Begin(ps, from, i + 1), ps[i + 1], j + (i + 1), Start(j, i + 1, count, parts), parts);
    }
    Shifted(ps, from, n - 1, j, count, parts);
  }

  lemma OccurJoined(ms: seq<Mark>, from: nat, j: nat, count: nat, parts: seq<Part>, ps: seq<nat>)
    requires j < |parts| && ps != [] && Taken(ms, from, ps[0], j, count, parts)
    requires Occur(ms, ps[0] + 1, j + 1, Fresh(j + 1, parts), parts, ps[1..])
    ensures Occur(ms, from, j, count, parts, ps)
  {
    hide Taken, Ends, Fresh;
    var more, n, begun := ps[1..], |parts| - j, Fresh(j + 1, parts);
    forall i | 0 <= i < n
      ensures Taken(ms, Begin(ps, from, i), ps[i], j + i, Start(j, i, count, parts), parts)
    {
      if i > 0 {
        Shifted(ps, from, i - 1, j, count, parts);
        assert Taken(ms, Begin(more, ps[0] + 1, i - 1), more[i - 1], j + 1 + (i - 1),
                     Start(j + 1, i - 1, begun, parts), parts);
      }
    }
    Shifted(ps, from, n - 1, j, count, parts);
  }

  lemma OccurSplits(ms: seq<Mark>, from: nat, j: nat, count: nat, parts: seq<Part>, ps: seq<nat>)
    requires j < |parts| && ps != []
    ensures Occur(ms, from, j, count, parts, ps)
            <==> Taken(ms, from, ps[0], j, count, parts)
                 && Occur(ms, ps[0] + 1, j + 1, Fresh(j + 1, parts), parts, ps[1..])
  {
    hide Taken, Ends, Fresh, Occur;
    if Occur(ms, from, j, count, parts, ps) { OccurCut(ms, from, j, count, parts, ps); }
    if Taken(ms, from, ps[0], j, count, parts)
       && Occur(ms, ps[0] + 1, j + 1, Fresh(j + 1, parts), parts, ps[1..]) {
      OccurJoined(ms, from, j, count, parts, ps);
    }
  }

  lemma OccurLast(ms: seq<Mark>, from: nat, count: nat, parts: seq<Part>, ps: seq<nat>)
    ensures Occur(ms, from, |parts|, count, parts, ps) <==> |ps| == 1 && Ends(ms, from, ps[0], parts)
  {
    hide Ends;
  }

  lemma TakenFrom(ms: seq<Mark>, from: nat, p: nat, j: nat, count: nat, parts: seq<Part>)
    requires from < |ms| && j < |parts|
    ensures Taken(ms, from, p, j, count, parts)
            <==> if IsNext(ms[from], j, count, parts) then p == from
                 else !(ms[from].Names? && ms[from].depth == j)
                      && Taken(ms, from + 1, p, j, Recount(ms[from], j, count, parts), parts)
  {
    hide IsNext, Recount;
    var next := Recount(ms[from], j, count, parts);
    forall n | from < n < |ms|
      ensures CountAt(ms, from, n, j, count, parts) == CountAt(ms, from + 1, n, j, next, parts)
    {}
    assert CountAt(ms, from, from, j, count, parts) == count;
  }

  lemma EndsFrom(ms: seq<Mark>, from: nat, p: nat, parts: seq<Part>)
    requires from < |ms|
    ensures Ends(ms, from, p, parts)
            <==> if ms[from].depth == |parts| && ms[from].Holds? then p == from
                 else !(ms[from].depth == |parts| && ms[from].Names?) && Ends(ms, from + 1, p, parts)
  {}

  /** The pass, one mark on. */
  lemma TrackFrom(ms: seq<Mark>, from: nat, j: nat, count: nat, parts: seq<Part>)
    requires from < |ms| && j <= |parts|
    ensures var m, r := ms[from], Track(ms[from..], j, count, parts);
            if j == |parts| then
              if m.depth == j && m.Holds? then r == Arrived(m.value)
              else if m.depth == j && m.Names? then r == GivenUp
              else r == Track(ms[from + 1..], j, count, parts)
            else if IsNext(m, j, count, parts) then r == Track(ms[from + 1..], j + 1, Fresh(j + 1, parts), parts)
            else if m.Names? && m.depth == j then r == GivenUp
            else r == Track(ms[from + 1..], j, Recount(m, j, count, parts), parts)
  {
    assert ms[from..][0] == ms[from] && ms[from..][1..] == ms[from + 1..];
  }

  /** All parts matched: the pass arrives at the value that ends the occurrence. */
  lemma {:induction false} ArrivalEnds(ms: seq<Mark>, from: nat, count: nat, parts: seq<Part>) returns (p: nat)
    requires from <= |ms| && Track(ms[from..], |parts|, count, parts).Arrived?
    ensures Ends(ms, from, p, parts)
    decreases |ms| - from
  {
    if from == |ms| { TrackNone(|parts|, count, parts); }
    TrackFrom(ms, from, |parts|, count, parts);
    hide Track, Ends, IsNext, Recount, Fresh;
    EndsFrom(ms, from, from, parts);
    if ms[from].depth == |parts| && ms[from].Holds? {
      p := from;
    } else {
      p := ArrivalEnds(ms, from + 1, count, parts);
      EndsFrom(ms, from, p, parts);
    }
  }

  lemma {:induction false} EndArrives(ms: seq<Mark>, from: nat, count: nat, parts: seq<Part>, p: nat)
    requires from <= |ms| && Ends(ms, from, p, parts)
    ensures p < |ms| && ms[p].Holds? && Track(ms[from..], |parts|, count, parts) == Arrived(ms[p].value)
    decreases |ms| - from
  {
    EndsInside(ms, from, p, parts);
    TrackFrom(ms, from, |parts|, count, parts);
    hide Track, Ends, IsNext, Recount, Fresh;
    EndsFrom(ms, from, p, parts);
    if p != from { EndArrives(ms, from + 1, count, parts, p); }
  }

  lemma EndsInside(ms: seq<Mark>, from: nat, p: nat, parts: seq<Part>)
    requires Ends(ms, from, p, parts)
    ensures from <= p < |ms| && ms[p].Holds? && ms[p].depth == |parts|
  {}

  lemma TakenInside(ms: seq<Mark>, from: nat, p: nat, j: nat, count: nat, parts: seq<Part>)
    requires j < |parts| && Taken(ms, from, p, j, count, parts)
    ensures from <= p < |ms|
  {}

  lemma {:induction false} ArrivalOccurs(ms: seq<Mark>, from: nat, j: nat, count: nat, parts: seq<Part>)
    returns (ps: seq<nat>)
    requires from <= |ms| && j <= |parts| && Track(ms[from..], j, count, parts).Arrived?
    ensures Occur(ms, from, j, count, parts, ps)
    decreases |ms| - from
  {
    hide Track, Taken, Ends, IsNext, Recount, Fresh, Occur;
    if j == |parts| {
      var p := ArrivalEnds(ms, from, count, parts);
      ps := [p];
      OccurLast(ms, from, count, parts, ps);
    } else {
      if from == |ms| {
        assert ms[from..] == [];
        TrackNone(j, count, parts);
      }
      TrackFrom(ms, from, j, count, parts);
      if IsNext(ms[from], j, count, parts) {
        var more := ArrivalOccurs(ms, from + 1, j + 1, Fresh(j + 1, parts), parts);
        ps := OccurHere(ms, from, j, count, parts, more);
      } else {
        ps := ArrivalOccurs(ms, from + 1, j, Recount(ms[from], j, count, parts), parts);
        OccurLater(ms, from, j, count, parts, ps);
      }
    }
  }

  /** A mark for part `j` is the first position of an occurrence. */
  lemma OccurHere(ms: seq<Mark>, from: nat, j: nat, count: nat, parts: seq<Part>, more: seq<nat>)
    returns (ps: seq<nat>)
    requires from < |ms| && j < |parts| && IsNext(ms[from], j, count, parts)
    requires Occur(ms, from + 1, j + 1, Fresh(j + 1, parts), parts, more)
    ensures ps == [from] + more && Occur(ms, from, j, count, parts, ps)
  {
    hide Taken, Ends, IsNext, Recount, Fresh, Occur;
    ps := [from] + more;
    assert ps[1..] == more;
    TakenFrom(ms, from, from, j, count, parts);
    OccurSplits(ms, from, j, count, parts, ps);
  }

  /** Another mark is passed over. */
  lemma OccurLater(ms: seq<Mark>, from: nat, j: nat, count: nat, parts: seq<Part>, ps: seq<nat>)
    requires from < |ms| && j < |parts| && !IsNext(ms[from], j, count, parts)
    ensures Occur(ms, from, j, count, parts, ps)
            <==> !(ms[from].Names? && ms[from].depth == j)
                 && Occur(ms, from + 1, j, Recount(ms[from], j, count, parts), parts, ps)
  {
    var next := Recount(ms[from], j, count, parts);
    if ps == [] {
    } else {
      hide Taken, Ends, IsNext, Recount, Fresh, Occur;
      TakenFrom(ms, from, ps[0], j, count, parts);
      OccurSplits(ms, from, j, count, parts, ps);
      OccurSplits(ms, from + 1, j, next, parts, ps);
    }
  }

  lemma OccurInside(ms: seq<Mark>, from: nat, j: nat, count: nat, parts: seq<Part>, ps: seq<nat>)
    requires j < |parts| && Occur(ms, from, j, count, parts, ps)
    ensures from < |ms|
  {
    hide Taken, Ends, Fresh;
    assert Taken(ms, Begin(ps, from, 0), ps[0], j + 0, Start(j, 0, count, parts), parts);
    TakenInside(ms, from, ps[0], j, count, parts);
  }

  lemma OccurBehind(ms: seq<Mark>, from: nat, j: nat, count: nat, parts: seq<Part>, ps: seq<nat>)
    requires from < |ms| && j < |parts| && IsNext(ms[from], j, count, parts) && ps != []
    requires Occur(ms, from, j, count, parts, ps)
    ensures Occur(ms, from + 1, j + 1, Fresh(j + 1, parts), parts, ps[1..])
  {
    hide Taken, Ends, IsNext, Recount, Fresh, Occur;
    OccurSplits(ms, from, j, count, parts, ps);
    TakenFrom(ms, from, ps[0], j, count, parts);
  }

  lemma OccurNotEmpty(ms: seq<Mark>, from: nat, j: nat, count: nat, parts: seq<Part>, ps: seq<nat>)
    requires j <= |parts| && Occur(ms, from, j, count, parts, ps)
    ensures |ps| == |parts| - j + 1
  {
    hide Taken, Ends;
  }

  lemma {:induction false} OccurrenceArrives(ms: seq<Mark>, from: nat, j: nat, count: nat, parts: seq<Part>,
                                             ps: seq<nat>)
    requires from <= |ms| && j <= |parts| && Occur(ms, from, j, count, parts, ps)
    ensures Track(ms[from..], j, count, parts).Arrived?
    decreases |ms| - from
  {
    hide Track, IsNext, Recount, Fresh, Occur, Ends, Taken;
    OccurNotEmpty(ms, from, j, count, parts, ps);
    if j == |parts| {
      OccurLast(ms, from, count, parts, ps);
      EndArrives(ms, from, count, parts, ps[0]);
    } else {
      OccurInside(ms, from, j, count, parts, ps);
      TrackFrom(ms, from, j, count, parts);
      if IsNext(ms[from], j, count, parts) {
        OccurBehind(ms, from, j, count, parts, ps);
        OccurrenceArrives(ms, from + 1, j + 1, Fresh(j + 1, parts), parts, ps[1..]);
      } else {
        OccurLater(ms, from, j, count, parts, ps);
        OccurrenceArrives(ms, from + 1, j, Recount(ms[from], j, count, parts), parts, ps);
      }
    }
  }

  /** The pass arrives exactly when the parts occur. */
  lemma ArrivesIff(ms: seq<Mark>, j: nat, count: nat, parts: seq<Part>)
    requires j <= |parts|
    ensures Track(ms, j, count, parts).Arrived? <==> exists ps: seq<nat> :: Occur(ms, 0, j, count, parts, ps)
  {
    hide Track, Occur;
    assert ms[0..] == ms;
    if Track(ms, j, count, parts).Arrived? { var ps := ArrivalOccurs(ms, 0, j, count, parts); }
    if ps: seq<nat> :| Occur(ms, 0, j, count, parts, ps) { OccurrenceArrives(ms, 0, j, count, parts, ps); }
  }

  // ----- When mjson_find and the lookup agree -------------------------------------------------------------

  /** The lookup fails, and the parts it could not follow occur among the marks behind the value it had come to. */
  ghost predicate Stray(v: Json, at: nat, parts: seq<Part>) {
    match Missed(v, at, 0, parts)
    case None => false
    case Some(m) => exists ps: seq<nat> :: Occur(m.behind, 0, m.j, m.count, parts, ps)
  }

  /**
   mjson_find agrees with the lookup by keys and element numbers exactly when the parts the lookup cannot follow do not
   occur behind the value it comes to. What the lookup finds is always found.
   */
  lemma ElementsAgreeIff(before: string, v: Json, after: string, parts: seq<Part>)
    requires AllBlank(before) && Valid(v) && Delimits(after) && Depth(v) <= MAX_DEPTH && AreNamed(parts)
    ensures var found, wanted := Find(before + Text(v) + after, PathTo(parts)), Reach(v, |before|, parts);
            && (found == wanted <==> !Stray(v, |before|, parts))
            && (wanted.Found? ==> found == wanted)
  {
    hide Find, Text, Marks, Track, Delimits, AllBlank, Occur, Reach, Missed, PathTo;
    FindIsTrack(before, v, after, parts);
    TrackVersusReach(v, |before|, 0, parts, []);
    assert Marks(v, |before|, 0) + [] == Marks(v, |before|, 0) && parts[0..] == parts;
    var miss := Missed(v, |before|, 0, parts);
    if miss.Some? {
      assert miss.value.behind + [] == miss.value.behind;
      ArrivesIff(miss.value.behind, miss.value.j, miss.value.count, parts);
    }
  }

  // ----- A key of an element ------------------------------------------------------------------------------

  /** The value of the key in the first of the elements from number `i` on that has it. */
  function FirstWith(es: Entries, n: nat, at: nat, i: nat, key: string): Found
    decreases es
  {
    if es == Nil then NotFound
    else
      var value := at + |Lead(false, n == 0, es)|;
      var f := Reach(es.value, value, [Name(key)]);
      if n >= i && f.Found? then f else FirstWith(es.rest, n + 1, value + |Text(es.value)|, i, key)
  }

  /** What is the last part of a path leaves no traces when it is missed. */
  lemma {:induction false} LastMissed(v: Json, at: nat, j: nat, parts: seq<Part>)
    requires j + 1 == |parts| && parts[j].Name?
    ensures Reach(v, at, parts[j..]).NotFound? ==> Missed(v, at, j, parts) == Some(Miss(j, Fresh(j, parts), []))
  {
    hide Text, Lead;
    if v.Node? && v.isObject { LastMissedIn(v.entries, 0, at + 1, j, parts); }
  }

  lemma {:induction false} LastMissedIn(es: Entries, n: nat, at: nat, j: nat, parts: seq<Part>)
    requires j + 1 == |parts| && parts[j].Name?
    ensures ReachIn(true, es, n, at, parts[j..]).NotFound?
            ==> MissedIn(true, es, n, at, j, parts) == Some(Miss(j, Fresh(j, parts), []))
    decreases es
  {
    hide Text, Lead;
    if es != Nil {
      var value := at + |Lead(true, n == 0, es)|;
      assert parts[j..][1..] == [];
      ReachHere(es.value, value);
      LastMissedIn(es.rest, n + 1, value + |Text(es.value)|, j, parts);
    }
  }

  /** An element once its number, or a larger one, has come up. */
  lemma ElementSearched(v: Json, at: nat, i: nat, key: string, more: seq<Mark>)
    ensures var parts := [Index(i), Name(key)];
            Track(Marks(v, at, 1) + more, 1, 0, parts)
            == var f := Reach(v, at, [Name(key)]); if f.Found? then Arrived(f) else Track(more, 1, 0, parts)
  {
    hide Track, Marks, Reach, Missed;
    var parts := [Index(i), Name(key)];
    assert parts[1..] == [Name(key)];
    TrackVersusReach(v, at, 1, parts, more);
    LastMissed(v, at, 1, parts);
    assert [] + more == more;
  }

  lemma CommaPasses(first: bool, other: string, i: nat, key: string)
    ensures var parts := [Index(i), Name(key)]; Track(LeadMarks(false, first, other, 1), 1, 0, parts) == Seeking(1, 0)
  {
    var parts := [Index(i), Name(key)];
    if first {
      TrackNone(1, 0, parts);
    } else {
      assert LeadMarks(false, first, other, 1) == [Comma(1)];
      TrackSingle(Comma(1), 1, 0, parts);
    }
  }

  /** Once the element has come up, the elements behind it are searched as well. */
  lemma {:induction false} SearchGoesOn(es: Entries, n: nat, at: nat, i: nat, key: string)
    requires n >= i
    ensures FoundBy(Track(InnerMarks(false, es, n == 0, at, 1), 1, 0, [Index(i), Name(key)]))
         == FirstWith(es, n, at, i, key)
    decreases es
  {
    hide Track, Marks, InnerMarks, Reach, Text, Lead, LeadMarks;
    var parts := [Index(i), Name(key)];
    InnerMarksSplit(false, es, n == 0, at, 1);
    if es == Nil {
      TrackNone(1, 0, parts);
    } else {
      var value := at + |Lead(false, n == 0, es)|;
      var rest := InnerMarks(false, es.rest, false, value + |Text(es.value)|, 1);
      CommaPasses(n == 0, es.key, i, key);
      TrackAppend(LeadMarks(false, n == 0, es.key, 1), Marks(es.value, value, 1) + rest, 1, 0, parts);
      ElementSearched(es.value, value, i, key, rest);
      SearchGoesOn(es.rest, n + 1, value + |Text(es.value)|, i, key);
    }
  }

  /** The elements in front of it are counted. */
  lemma {:induction false} ElementsCounted(es: Entries, n: nat, at: nat, i: nat, key: string)
    requires 0 < i && n <= i
    ensures FoundBy(Track(InnerMarks(false, es, n == 0, at, 1), 0, Passed(n), [Index(i), Name(key)]))
         == FirstWith(es, n, at, i, key)
    decreases es
  {
    hide Track, Marks, InnerMarks, Reach, Text, Lead, LeadMarks;
    var parts := [Index(i), Name(key)];
    InnerMarksSplit(false, es, n == 0, at, 1);
    if es == Nil {
      TrackNone(0, Passed(n), parts);
    } else {
      var value := at + |Lead(false, n == 0, es)|;
      var next := value + |Text(es.value)|;
      var lead, marks, rest := LeadMarks(false, n == 0, es.key, 1), Marks(es.value, value, 1),
                               InnerMarks(false, es.rest, false, next, 1);
      LeadCourse(false, n, es.key, 0, parts);
      TrackAppend(lead, marks + rest, 0, Passed(n), parts);
      if n == i {
        ElementSearched(es.value, value, i, key, rest);
        SearchGoesOn(es.rest, n + 1, next, i, key);
      } else {
        ValuePasses(es.value, value, rest, 0, Passed(n + 1), parts);
        ElementsCounted(es.rest, n + 1, next, i, key);
      }
    }
  }

  /**
   `$[i].key` in an array does not look into element `i` alone: it finds the key in the first element from there on that
   has one.
   */
  lemma KeyOfElement(before: string, es: Entries, space: string, after: string, i: nat, key: string)
    requires AllBlank(before) && Valid(Node(false, es, space)) && Delimits(after) && IsPart(key)
    requires Depth(Node(false, es, space)) <= MAX_DEPTH
    ensures Find(before + Text(Node(false, es, space)) + after, PathTo([Index(i), Name(key)]))
         == FirstWith(es, 0, |before| + 1, i, key)
  {
    hide Find, Track, Text, Marks, Valid, Depth, PathTo, Delimits, AllBlank, InnerMarks, Reach;
    var v, parts, at := Node(false, es, space), [Index(i), Name(key)], |before|;
    FindIsTrack(before, v, after, parts);
    MarksOf(v, at, 0);
    var inner := InnerMarks(false, es, true, at + 1, 1);
    HoldsMark(v, at, 0, [Opens(1)] + inner, 0, i, parts);
    TrackAppend([Opens(1)], inner, 0, i, parts);
    TrackSingle(Opens(1), 0, i, parts);
    if i == 0 { SearchGoesOn(es, 0, at + 1, i, key); } else { ElementsCounted(es, 0, at + 1, i, key); }
  }

  function OneEntry(key: string, v: Json): Json {
    Node(true, Cons([], [], key, [], [], v, Nil), [])
  }

  function Two(v: Json, w: Json): Json {
    Node(false, Cons([], [], [], [], [], v, Cons([], [], [], [], [], w, Nil)), [])
  }

  lemma OneEntryReached(key: string, v: Json, at: nat, name: string)
    ensures var f := Reach(OneEntry(key, v), at, [Name(name)]);
            if key == name then f.Found? && f.tok == TokOf(v) && f.len == |Text(v)| else f == NotFound
  {
    hide Text, Lead;
    var es := Cons([], [], key, [], [], v, Nil);
    var value := at + 1 + |Lead(true, true, es)|;
    assert [Name(name)][1..] == [];
    ReachHere(v, value);
    assert ReachIn(true, Nil, 1, value + |Text(v)|, [Name(name)]) == NotFound;
  }

  lemma TwoEntries(v: Json, w: Json, at: nat, key: string)
    ensures var es := Two(v, w).entries;
            var a := at + |Lead(false, true, es)|;
            var b := a + |Text(v)| + |Lead(false, false, es.rest)|;
            var f, g := Reach(v, a, [Name(key)]), Reach(w, b, [Name(key)]);
            FirstWith(es, 0, at, 0, key) == if f.Found? then f else g
  {
    hide Text, Lead, Reach;
    var es := Two(v, w).entries;
    var a := at + |Lead(false, true, es)|;
    var b := a + |Text(v)| + |Lead(false, false, es.rest)|;
    assert FirstWith(Nil, 2, b + |Text(w)|, 0, key) == NotFound;
    assert FirstWith(es.rest, 1, a + |Text(v)|, 0, key) == var g := Reach(w, b, [Name(key)]); g;
  }

  lemma OneIsValid(k: string, v: Json)
    requires Valid(v) && Body(k)
    ensures Valid(OneEntry(k, v)) && Depth(OneEntry(k, v)) == 1 + Depth(v)
  {
    hide Body;
    var es := Cons([], [], k, [], [], v, Nil);
    assert ValidEntries(true, Nil) && EntriesDepth(Nil) == 0;
    assert ValidEntries(true, es) && EntriesDepth(es) == Depth(v);
  }

  lemma TwoIsValid(v: Json, w: Json)
    requires Valid(v) && Valid(w) && Depth(v) <= MAX_DEPTH - 1 && Depth(w) <= MAX_DEPTH - 1
    ensures Valid(Two(v, w)) && Depth(Two(v, w)) <= MAX_DEPTH
  {
    var second := Cons([], [], [], [], [], w, Nil);
    var es := Cons([], [], [], [], [], v, second);
    assert ValidEntries(false, Nil) && EntriesDepth(Nil) == 0;
    assert ValidEntries(false, second) && EntriesDepth(second) == Depth(w);
    assert ValidEntries(false, es) && EntriesDepth(es) <= MAX_DEPTH - 1;
  }

  lemma FoundInTwo(v: Json, w: Json, key: string)
    requires Valid(Two(v, w)) && Depth(Two(v, w)) <= MAX_DEPTH && IsPart(key)
    ensures Find(Text(Two(v, w)), PathTo([Index(0), Name(key)])) == FirstWith(Two(v, w).entries, 0, 1, 0, key)
  {
    hide Find, Text, Valid, Depth, PathTo, FirstWith;
    KeyOfElement([], Two(v, w).entries, [], [], 0, key);
    assert [] + Text(Two(v, w)) + [] == Text(Two(v, w));
  }

  /** `$[0].l` in `[{"k":v},{"l":w}]` finds `w`, though element 0 has no such key. */
  lemma ElementGoesAstray(k: string, v: Json, l: string, w: Json)
    requires Valid(v) && Valid(w) && Body(k) && Body(l) && Depth(v) <= MAX_DEPTH - 2 && Depth(w) <= MAX_DEPTH - 2
    requires k != l && IsPart(l)
    ensures var t, path := Two(OneEntry(k, v), OneEntry(l, w)), [Index(0), Name(l)];
            var found := Find(Text(t), PathTo(path));
            Reach(t, 0, path) == NotFound && found.Found? && found.tok == TokOf(w) && found.len == |Text(w)|
  {
    hide Find, Text, Lead, Valid, Depth, PathTo, Reach, FirstWith;
    var first, second, path := OneEntry(k, v), OneEntry(l, w), [Index(0), Name(l)];
    var t := Two(first, second);
    OneIsValid(k, v);
    OneIsValid(l, w);
    TwoIsValid(first, second);
    FoundInTwo(first, second, l);
    TwoEntries(first, second, 1, l);
    var a := 1 + |Lead(false, true, t.entries)|;
    OneEntryReached(k, v, a, l);
    OneEntryReached(l, w, a + |Text(first)| + |Lead(false, false, t.entries.rest)|, l);
    ElementOfTwo(first, second, l);
  }

  lemma ElementOfTwo(v: Json, w: Json, key: string)
    ensures Reach(Two(v, w), 0, [Index(0), Name(key)])
         == Reach(v, 1 + |Lead(false, true, Two(v, w).entries)|, [Name(key)])
  {
    hide Text, Lead;
    assert [Index(0), Name(key)][1..] == [Name(key)];
  }
}

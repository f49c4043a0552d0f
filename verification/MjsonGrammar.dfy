/**
 The scanner on every text, JSON or not (libs/mjson.c, mjson): the state machine with its stack of brackets does what
 recursive descent does. Of texts that are not JSON it accepts those with a comma in front of a closing bracket.
 */
module MjsonGrammar {
  import opened MjsonText
  import opened MjsonScanner

  // ----- Recursive descent --------------------------------------------------------------------------------

  /** A value from `i` on, inside `d` brackets: its events, and where it ends or the error. */
  function ValueAt(s: string, i: nat, d: nat): (r: Scanned)
    requires i <= |s|
    ensures r.end < 0 || i <= r.end <= |s|
    decreases |s| - i, 2
  {
    if i == |s| then Stop(INVALID_INPUT)
    else if Blank(s[i]) then ValueAt(s, i + 1, d)
    else if (s[i] == '[' || s[i] == '{') && d >= 20 then Stop(TOO_DEEP)
    else if s[i] == '[' then Emit(Event('[' as int, i, 1), ElementsAt(s, i + 1, d + 1))
    else if s[i] == '{' then Emit(Event('{' as int, i, 1), MembersAt(s, i + 1, d + 1))
    else match ScalarAt(s, i)
      case NoScalar(error) => Stop(error)
      case Scalar(tok, len) => Scanned([Event(tok, i, len)], i + len)
  }

  /** The rest of an array, behind its bracket or a comma. */
  function ElementsAt(s: string, i: nat, d: nat): (r: Scanned)
    requires i <= |s|
    ensures r.end < 0 || i <= r.end <= |s|
    decreases |s| - i, 3
  {
    if i == |s| then Stop(INVALID_INPUT)
    else if Blank(s[i]) then ElementsAt(s, i + 1, d)
    else if s[i] == ']' then Scanned([Event(']' as int, i, 1)], i + 1)
    else
      var v := ValueAt(s, i, d);
      if v.end < 0 then v else Prepend(v.events, BehindElement(s, v.end, d))
  }

  function BehindElement(s: string, i: nat, d: nat): (r: Scanned)
    requires i <= |s|
    ensures r.end < 0 || i <= r.end <= |s|
    decreases |s| - i, 1
  {
    if i == |s| then Stop(INVALID_INPUT)
    else if Blank(s[i]) then BehindElement(s, i + 1, d)
    else if s[i] == ',' then Emit(Event(',' as int, i, 1), ElementsAt(s, i + 1, d))
    else if s[i] == ']' then Scanned([Event(']' as int, i, 1)], i + 1)
    else Stop(INVALID_INPUT)
  }

  /** The rest of an object, behind its bracket or a comma. */
  function MembersAt(s: string, i: nat, d: nat): (r: Scanned)
    requires i <= |s|
    ensures r.end < 0 || i <= r.end <= |s|
    decreases |s| - i, 3
  {
    if i == |s| then Stop(INVALID_INPUT)
    else if Blank(s[i]) then MembersAt(s, i + 1, d)
    else if s[i] == '}' then Scanned([Event('}' as int, i, 1)], i + 1)
    else if s[i] != '"' then Stop(INVALID_INPUT)
    else
      var n := PassString(s[i + 1..]);
      if n < 0 then Stop(INVALID_INPUT) else Emit(Event(TOK_KEY, i, n + 2), BehindKey(s, i + n + 2, d))
  }

  function BehindKey(s: string, i: nat, d: nat): (r: Scanned)
    requires i <= |s|
    ensures r.end < 0 || i <= r.end <= |s|
    decreases |s| - i, 3
  {
    if i == |s| then Stop(INVALID_INPUT)
    else if Blank(s[i]) then BehindKey(s, i + 1, d)
    else if s[i] != ':' then Stop(INVALID_INPUT)
    else
      var v := ValueAt(s, i + 1, d);
      Emit(Event(':' as int, i, 1), if v.end < 0 then v else Prepend(v.events, BehindMember(s, v.end, d)))
  }

  function BehindMember(s: string, i: nat, d: nat): (r: Scanned)
    requires i <= |s|
    ensures r.end < 0 || i <= r.end <= |s|
    decreases |s| - i, 1
  {
    if i == |s| then Stop(INVALID_INPUT)
    else if Blank(s[i]) then BehindMember(s, i + 1, d)
    else if s[i] == ',' then Emit(Event(',' as int, i, 1), MembersAt(s, i + 1, d))
    else if s[i] == '}' then Scanned([Event('}' as int, i, 1)], i + 1)
    else Stop(INVALID_INPUT)
  }

  // ----- The state machine goes the same way --------------------------------------------------------------

  /** What was read, and then the scan behind it, inside the brackets `nest`. */
  function Onward(s: string, r: Scanned, nest: string): Scanned
    requires r.end <= |s|
  {
    if r.end < 0 then r else Prepend(r.events, After(s, r.end, nest))
  }

  lemma OnwardPrepend(s: string, es: seq<Event>, r: Scanned, nest: string)
    requires r.end <= |s|
    ensures Onward(s, Prepend(es, r), nest) == Prepend(es, Onward(s, r, nest))
  {
    hide After;
    if r.end >= 0 {
      var k := After(s, r.end, nest);
      assert (es + r.events) + k.events == es + (r.events + k.events);
    }
  }

  lemma OnwardEmit(s: string, e: Event, r: Scanned, nest: string)
    requires r.end <= |s|
    ensures Onward(s, Emit(e, r), nest) == Emit(e, Onward(s, r, nest))
  {
    hide After;
    OnwardPrepend(s, [e], r, nest);
  }

  lemma OnwardOne(s: string, e: Event, end: nat, nest: string)
    requires end <= |s|
    ensures Onward(s, Scanned([e], end), nest) == Emit(e, After(s, end, nest))
  {
    hide After;
  }

  /** A value, where no `]` may stand instead of it. */
  lemma {:induction false} ValueScans(s: string, i: nat, nest: string)
    requires i <= |s| && (nest == [] || nest[|nest| - 1] == '{' || (i < |s| && !Blank(s[i]) && s[i] != ']'))
    ensures Scan(s, i, nest, Value) == Onward(s, ValueAt(s, i, |nest|), nest)
    decreases |s| - i, 2
  {
    hide After, ScalarAt, Onward;
    OnwardStop(s, INVALID_INPUT, nest);
    OnwardStop(s, TOO_DEEP, nest);
    if i < |s| {
      var c := s[i];
      if Blank(c) {
        ValueScans(s, i + 1, nest);
      } else if c == '[' && |nest| < 20 {
        ElementsScan(s, i + 1, nest);
        OnwardEmit(s, Event('[' as int, i, 1), ElementsAt(s, i + 1, |nest| + 1), nest);
      } else if c == '{' && |nest| < 20 {
        MembersScan(s, i + 1, nest);
        OnwardEmit(s, Event('{' as int, i, 1), MembersAt(s, i + 1, |nest| + 1), nest);
      } else if c == ']' {
        NoScalarHere(s, i);
        ClosesNothing(s, i, nest);
      } else if c != '[' && c != '{' {
        ScalarScans(s, i, nest);
      }
    }
  }

  lemma OnwardStop(s: string, error: int, nest: string)
    requires error < 0
    ensures Onward(s, Stop(error), nest) == Stop(error)
  {}

  lemma NoScalarHere(s: string, i: nat)
    requires i < |s| && s[i] == ']'
    ensures ScalarAt(s, i) == NoScalar(INVALID_INPUT)
  {}

  lemma ClosesNothing(s: string, i: nat, nest: string)
    requires i < |s| && s[i] == ']' && (nest == [] || nest[|nest| - 1] == '{')
    ensures Scan(s, i, nest, Value) == Stop(INVALID_INPUT)
  {
    NoScalarHere(s, i);
  }

  lemma ScalarScans(s: string, i: nat, nest: string)
    requires i < |s| && !Blank(s[i]) && s[i] != ']' && s[i] != '[' && s[i] != '{'
    ensures Scan(s, i, nest, Value) == Onward(s, ValueAt(s, i, |nest|), nest)
  {
    hide After, ScalarAt;
    match ScalarAt(s, i)
    case NoScalar(error) =>
    case Scalar(tok, len) => OnwardOne(s, Event(tok, i, len), i + len, nest);
  }

  /** Inside the array that `[` opened inside the brackets `outer`. */
  lemma {:induction false} ElementsScan(s: string, i: nat, outer: string)
    requires i <= |s|
    ensures Scan(s, i, outer + ['['], Value) == Onward(s, ElementsAt(s, i, |outer| + 1), outer)
    decreases |s| - i, 3
  {
    hide ScalarAt, ValueAt, BehindElement, Onward;
    var nest := outer + ['['];
    OnwardStop(s, INVALID_INPUT, outer);
    if i < |s| {
      if Blank(s[i]) {
        ElementsScan(s, i + 1, outer);
      } else if s[i] == ']' {
        Closes(s, i, outer, '[');
      } else {
        ValueScans(s, i, nest);
        var v := ValueAt(s, i, |nest|);
        if v.end >= 0 { BehindElementScans(s, v.end, outer); }
        hide Scan, After;
        ThenBehind(s, v, nest, outer, if v.end >= 0 then BehindElement(s, v.end, |nest|) else v);
      }
    }
  }

  /** A value, and what stands behind it. */
  lemma ThenBehind(s: string, v: Scanned, nest: string, outer: string, behind: Scanned)
    requires v.end <= |s| && behind.end <= |s| && nest != []
    requires v.end >= 0 ==> Scan(s, v.end, nest, CommaOrEoo) == Onward(s, behind, outer)
    ensures Onward(s, v, nest) == Onward(s, if v.end < 0 then v else Prepend(v.events, behind), outer)
  {
    hide Scan;
    if v.end >= 0 { OnwardPrepend(s, v.events, behind, outer); }
  }

  /** The closing bracket of the innermost open one. */
  lemma Closes(s: string, i: nat, outer: string, open: char)
    requires i < |s| && (open == '[' || open == '{') && s[i] as int == open as int + 2
    ensures Close(s, i, outer + [open]) == Onward(s, Scanned([Event(s[i] as int, i, 1)], i + 1), outer)
  {
    assert (outer + [open])[..|outer|] == outer;
    hide After;
    OnwardOne(s, Event(s[i] as int, i, 1), i + 1, outer);
  }

  lemma {:induction false} BehindElementScans(s: string, i: nat, outer: string)
    requires i <= |s|
    ensures Scan(s, i, outer + ['['], CommaOrEoo) == Onward(s, BehindElement(s, i, |outer| + 1), outer)
    decreases |s| - i, 1
  {
    hide After, ElementsAt, Onward;
    OnwardStop(s, INVALID_INPUT, outer);
    if i < |s| {
      if Blank(s[i]) {
        BehindElementScans(s, i + 1, outer);
      } else if s[i] == ',' {
        ElementsScan(s, i + 1, outer);
        OnwardEmit(s, Event(',' as int, i, 1), ElementsAt(s, i + 1, |outer| + 1), outer);
      } else if s[i] == ']' {
        Closes(s, i, outer, '[');
      }
    }
  }

  /** Inside the object that `{` opened inside the brackets `outer`. */
  lemma {:induction false} MembersScan(s: string, i: nat, outer: string)
    requires i <= |s|
    ensures Scan(s, i, outer + ['{'], Key) == Onward(s, MembersAt(s, i, |outer| + 1), outer)
    decreases |s| - i, 3
  {
    hide After, BehindKey, Onward, PassString;
    OnwardStop(s, INVALID_INPUT, outer);
    if i < |s| {
      if Blank(s[i]) {
        MembersScan(s, i + 1, outer);
      } else if s[i] == '}' {
        Closes(s, i, outer, '{');
      } else if s[i] == '"' {
        var n := PassString(s[i + 1..]);
        if n >= 0 {
          BehindKeyScans(s, i + n + 2, outer);
          OnwardEmit(s, Event(TOK_KEY, i, n + 2), BehindKey(s, i + n + 2, |outer| + 1), outer);
        }
      }
    }
  }

  lemma {:induction false} BehindKeyScans(s: string, i: nat, outer: string)
    requires i <= |s|
    ensures Scan(s, i, outer + ['{'], Colon) == Onward(s, BehindKey(s, i, |outer| + 1), outer)
    decreases |s| - i, 3
  {
    hide ValueAt, BehindMember, Onward;
    var nest := outer + ['{'];
    OnwardStop(s, INVALID_INPUT, outer);
    if i < |s| {
      if Blank(s[i]) {
        BehindKeyScans(s, i + 1, outer);
      } else if s[i] == ':' {
        ValueScans(s, i + 1, nest);
        var v := ValueAt(s, i + 1, |nest|);
        if v.end >= 0 { BehindMemberScans(s, v.end, outer); }
        var rest := if v.end >= 0 then BehindMember(s, v.end, |nest|) else v;
        assert Scan(s, i, nest, Colon) == Emit(Event(':' as int, i, 1), Scan(s, i + 1, nest, Value));
        hide Scan, After;
        ThenBehind(s, v, nest, outer, rest);
        OnwardEmit(s, Event(':' as int, i, 1), if v.end < 0 then v else Prepend(v.events, rest), outer);
      }
    }
  }

  lemma {:induction false} BehindMemberScans(s: string, i: nat, outer: string)
    requires i <= |s|
    ensures Scan(s, i, outer + ['{'], CommaOrEoo) == Onward(s, BehindMember(s, i, |outer| + 1), outer)
    decreases |s| - i, 1
  {
    hide After, MembersAt, Onward;
    OnwardStop(s, INVALID_INPUT, outer);
    if i < |s| {
      if Blank(s[i]) {
        BehindMemberScans(s, i + 1, outer);
      } else if s[i] == ',' {
        MembersScan(s, i + 1, outer);
        OnwardEmit(s, Event(',' as int, i, 1), MembersAt(s, i + 1, |outer| + 1), outer);
      } else if s[i] == '}' {
        Closes(s, i, outer, '{');
      }
    }
  }

  /** On every text the scanner reports the events of recursive descent, and ends where it does or with its error. */
  lemma ScanIsDescent(s: string)
    ensures ScanAll(s) == ValueAt(s, 0, 0)
  {
    hide Scan, ValueAt;
    ValueScans(s, 0, []);
    var r := ValueAt(s, 0, 0);
    assert r.events + [] == r.events;
  }

  /** `[true,]` is no JSON, but is accepted. */
  lemma CommaBeforeBracket()
    ensures ScanAll("[true,]") == Scanned([Event('[' as int, 0, 1), Event(TOK_TRUE, 1, 4), Event(',' as int, 5, 1),
                                           Event(']' as int, 6, 1)], 7)
  {
    hide ScanAll;
    var s := "[true,]";
    ScanIsDescent(s);
    assert s[1..5] == "true" && At(s, 1, "true");
    assert ScalarAt(s, 1) == Scalar(TOK_TRUE, 4);
    assert ElementsAt(s, 6, 1) == Scanned([Event(']' as int, 6, 1)], 7);
    assert BehindElement(s, 5, 1) == Scanned([Event(',' as int, 5, 1), Event(']' as int, 6, 1)], 7);
  }
}

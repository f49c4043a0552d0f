/**
 Taking a module's reply apart (module_manager.c, parse_content): the buffer is cut in place at its colons,
 into at most `max` texts.
 */
module ModuleContent {
  const NUL: char := '\0'

  /** The C string at b[i..]. */
  function Text(b: seq<char>, i: nat): (t: string)
    ensures i <= |b| ==> i + |t| <= |b|
    decreases |b| - i
  {
    if i >= |b| || b[i] == NUL then [] else [b[i]] + Text(b, i + 1)
  }

  /** Where the first colon is, or the length. */
  function Colon(t: string): (k: nat)
    ensures k <= |t| && (k < |t| ==> t[k] == ':') && ':' !in t[..k]
  {
    if t == [] || t[0] == ':' then 0
    else
      assert forall k :: 0 <= k <= |t| - 1 ==> t[..k + 1] == [t[0]] + t[1..][..k];
      1 + Colon(t[1..])
  }

  /** The text cut at its first max - 1 colons. */
  function Split(t: string, max: nat): (parts: seq<string>)
    ensures |parts| <= max
    decreases max
  {
    if max == 0 then []
    else if max == 1 || Colon(t) == |t| then [t]
    else [t[..Colon(t)]] + Split(t[Colon(t) + 1..], max - 1)
  }

  function Join(parts: seq<string>): string {
    if parts == [] then [] else if |parts| == 1 then parts[0] else parts[0] + [':'] + Join(parts[1..])
  }

  function Colons(t: string): nat {
    if t == [] then 0 else (if t[0] == ':' then 1 else 0) + Colons(t[1..])
  }

  lemma {:induction false} ColonsSplit(t: string, k: nat)
    requires k == Colon(t)
    ensures Colons(t) == if k < |t| then 1 + Colons(t[k + 1..]) else 0
    decreases |t|
  {
    if t != [] && t[0] != ':' {
      ColonsSplit(t[1..], k - 1);
      if k < |t| { assert t[1..][k..] == t[k + 1..]; }
    }
  }

  /**
   Joined again the parts give the text; only the last may hold colons, and it does so only when there are `max` parts.
   */
  lemma {:induction false} SplitJoins(t: string, max: nat)
    requires max > 0
    ensures var parts := Split(t, max);
            && Join(parts) == t
            && |parts| == (if Colons(t) + 1 < max then Colons(t) + 1 else max)
            && forall i :: 0 <= i < |parts| - 1 ==> ':' !in parts[i]
    decreases max
  {
    hide Colon, Colons, Split, Join;
    var k := Colon(t);
    ColonsSplit(t, k);
    if max > 1 && k < |t| {
      SplitOnce(t, max);
      SplitJoins(t[k + 1..], max - 1);
      JoinMore(t[..k], Split(t[k + 1..], max - 1));
      assert t == t[..k] + [':'] + t[k + 1..];
    } else {
      SplitWhole(t, max);
    }
  }

  lemma SplitOnce(t: string, max: nat)
    requires max > 1 && Colon(t) < |t|
    ensures Split(t, max) == [t[..Colon(t)]] + Split(t[Colon(t) + 1..], max - 1)
  {}

  lemma SplitWhole(t: string, max: nat)
    requires max > 0 && (max == 1 || Colon(t) == |t|)
    ensures Split(t, max) == [t] && Join([t]) == t
  {}

  lemma JoinMore(x: string, rest: seq<string>)
    requires rest != []
    ensures Join([x] + rest) == x + [':'] + Join(rest)
  {
    assert ([x] + rest)[1..] == rest;
  }

  // ----- Cutting in place ---------------------------------------------------------------------------------

  /** A change behind the end of a text does not matter to it. */
  lemma {:induction false} TextApart(b: seq<char>, i: nat, at: nat)
    requires i + |Text(b, i)| < at < |b|
    ensures Text(b[at := NUL], i) == Text(b, i)
    decreases |b| - i
  {
    if i < |b| && b[i] != NUL { TextApart(b, i + 1, at); }
  }

  /** Cutting a text at its k-th character leaves the two texts around it. */
  lemma {:induction false} TextCut(b: seq<char>, i: nat, k: nat)
    requires k < |Text(b, i)| && i <= |b|
    ensures i + k < |b| && Text(b[i + k := NUL], i) == Text(b, i)[..k]
            && Text(b[i + k := NUL], i + k + 1) == Text(b, i)[k + 1..]
    decreases k
  {
    var t, b' := Text(b, i), b[i + k := NUL];
    if k == 0 {
      TextBefore(b, i + 1, i);
      assert t[1..] == Text(b, i + 1);
    } else {
      TextCut(b, i + 1, k - 1);
      assert b[i + 1 + (k - 1) := NUL] == b';
      assert t[..k] == [b[i]] + Text(b, i + 1)[..k - 1] && t[k + 1..] == Text(b, i + 1)[k..];
    }
  }

  lemma {:induction false} TextBefore(b: seq<char>, i: nat, at: nat)
    requires at < i && at < |b|
    ensures Text(b[at := NUL], i) == Text(b, i)
    decreases |b| - i
  {
    if i < |b| && b[i] != NUL { TextBefore(b, i + 1, at); }
  }

  /** strchr(s, ':') from position `from`: the position found, or that of the terminating NUL. */
  method FindColon(buffer: array<char>, from: nat) returns (at: nat)
    requires from < buffer.Length && NUL in buffer[..][from..]
    ensures at == from + Colon(Text(buffer[..], from)) && at < buffer.Length && (buffer[at] == ':' || buffer[at] == NUL)
    ensures buffer[at] == ':' <==> Colon(Text(buffer[..], from)) < |Text(buffer[..], from)|
  {
    assert buffer[..][from..] == buffer[from..];
    at := from;
    while buffer[at] != ':' && buffer[at] != NUL
      invariant from <= at < buffer.Length && NUL in buffer[at..]
      invariant from + Colon(Text(buffer[..], from)) == at + Colon(Text(buffer[..], at))
      invariant from + |Text(buffer[..], from)| == at + |Text(buffer[..], at)|
      decreases buffer.Length - at
    {
      assert buffer[at..] == [buffer[at]] + buffer[at + 1..];
      assert Text(buffer[..], at)[1..] == Text(buffer[..], at + 1);
      at := at + 1;
    }
  }

  /**
   The buffer `b` after some cuts of `whole`: the texts at all starts but the last are parts of it, the last is still to
   be cut.
   */
  ghost predicate CutUp(b: seq<char>, starts: seq<nat>, done: seq<string>, whole: string, max: nat) {
    && 1 <= |starts| <= max && |done| == |starts| - 1
    && (var last := starts[|starts| - 1];
        && last < |b| && NUL in b[last..]
        && Split(whole, max) == done + Split(Text(b, last), max - |done|)
        && forall i :: 0 <= i < |done| ==> Text(b, starts[i]) == done[i] && starts[i] + |done[i]| < last)
  }

  lemma CutMore(b: seq<char>, starts: seq<nat>, done: seq<string>, whole: string, max: nat, k: nat)
    requires CutUp(b, starts, done, whole, max) && |starts| < max
    requires k == Colon(Text(b, starts[|starts| - 1])) < |Text(b, starts[|starts| - 1])|
    ensures var last := starts[|starts| - 1];
            && last + k < |b|
            && CutUp(b[last + k := NUL], starts + [last + k + 1], done + [Text(b, last)[..k]], whole, max)
  {
    hide Text, Split, Colon;
    var last := starts[|starts| - 1];
    var t, at := Text(b, last), last + k;
    NulBehind(b, last, at);
    TextCut(b, last, k);
    var b', starts', done' := b[at := NUL], starts + [at + 1], done + [t[..k]];
    BehindCut(b, at);
    SplitOnce(t, max - |done|);
    Regroup(done, t[..k], Split(t[k + 1..], max - |done'|));
    forall i | 0 <= i < |done'|
      ensures Text(b', starts'[i]) == done'[i] && starts'[i] + |done'[i]| < at + 1
    {
      if i < |done| { TextApart(b, starts[i], at); }
    }
  }

  lemma BehindCut(b: seq<char>, at: nat)
    requires at < |b|
    ensures b[at := NUL][at + 1..] == b[at + 1..]
  {}

  lemma Regroup(a: seq<string>, x: string, c: seq<string>)
    ensures a + ([x] + c) == (a + [x]) + c
  {}

  lemma NotCutYet(b: seq<char>, max: nat)
    requires max > 0 && |b| > 0 && NUL in b
    ensures CutUp(b, [0], [], Text(b, 0), max)
  {
    assert b[0..] == b && [] + Split(Text(b, 0), max) == Split(Text(b, 0), max);
  }

  lemma LastStart(b: seq<char>, starts: seq<nat>, done: seq<string>, whole: string, max: nat)
    requires CutUp(b, starts, done, whole, max)
    ensures 1 <= |starts| <= max && starts[|starts| - 1] < |b| && NUL in b[starts[|starts| - 1]..]
  {}

  lemma CutUpDone(b: seq<char>, starts: seq<nat>, done: seq<string>, whole: string, max: nat)
    requires CutUp(b, starts, done, whole, max)
    requires var t := Text(b, starts[|starts| - 1]); |starts| == max || Colon(t) == |t|
    ensures |starts| == |Split(whole, max)| && forall i :: 0 <= i < |starts|
                                                 ==> Text(b, starts[i]) == Split(whole, max)[i]
  {
    var t := Text(b, starts[|starts| - 1]);
    assert Split(t, max - |done|) == [t];
  }

  /** parse_content; the pointers are offsets into the buffer. */
  method ParseContent(buffer: array<char>, max: nat) returns (starts: seq<nat>)
    requires buffer.Length > 0 && NUL in buffer[..]
    modifies buffer
    ensures |starts| == |Split(Text(old(buffer[..]), 0), max)|
    ensures forall i :: 0 <= i < |starts| ==> Text(buffer[..], starts[i]) == Split(Text(old(buffer[..]), 0), max)[i]
  {
    if max == 0 { return []; }
    ghost var whole, done := Text(buffer[..], 0), [];
    starts := [0];
    NotCutYet(buffer[..], max);
    hide Text, Split, Colon, CutUp;
    while |starts| < max
      invariant 1 <= |starts| <= max && CutUp(buffer[..], starts, done, whole, max)
      decreases max - |starts|
    {
      ghost var before := buffer[..];
      LastStart(before, starts, done, whole, max);
      var last := starts[|starts| - 1];
      var at := FindColon(buffer, last);
      if buffer[at] == NUL {
        CutUpDone(before, starts, done, whole, max);
        return;
      }
      CutMore(before, starts, done, whole, max, at - last);
      buffer[at] := NUL;
      assert buffer[..] == before[at := NUL];
      done := done + [Text(before, last)[..at - last]];
      starts := starts + [at + 1];
      LastStart(buffer[..], starts, done, whole, max);
    }
    CutUpDone(buffer[..], starts, done, whole, max);
  }

  lemma {:induction false} NulBehind(b: seq<char>, i: nat, at: nat)
    requires i <= at < |b| && at < i + |Text(b, i)| && NUL in b[i..]
    ensures at + 1 < |b| && NUL in b[at + 1..]
    decreases at - i
  {
    assert b[i..] == [b[i]] + b[i + 1..];
    if i < at { NulBehind(b, i + 1, at); }
  }
}

/** Paths of keys and array indices (libs/mjson.c): what stands where in their text. */
module MjsonPath {
  import opened MjsonText
  import opened MjsonFind

  /** A part of a path: `.name`, or `[n]`. */
  datatype Part = Name(name: string) | Index(n: nat)

  predicate IsPart(k: string) {
    forall i :: 0 <= i < |k| ==> !EndsPart(k[i])
  }

  predicate AreNamed(parts: seq<Part>) {
    forall i :: 0 <= i < |parts| && parts[i].Name? ==> IsPart(parts[i].name)
  }

  // ----- Numerals -----------------------------------------------------------------------------------------

  predicate AllDigits(t: string) {
    forall i :: 0 <= i < |t| ==> Digit(t[i])
  }

  function Worth(c: char): nat
    requires Digit(c)
  {
    c as int - '0' as int
  }

  function Figure(d: nat): (c: char)
    requires d < 10
    ensures Digit(c) && Worth(c) == d
  {
    ('0' as int + d) as char
  }

  function Numeral(n: nat): (t: string)
    ensures t != [] && AllDigits(t)
  {
    if n < 10 then [Figure(n)] else Numeral(n / 10) + [Figure(n % 10)]
  }

  /** What the figures `t` make of a number read so far. */
  function Grown(t: string, n: nat): nat
    requires AllDigits(t)
  {
    if t == [] then n else Grown(t[1..], 10 * n + Worth(t[0]))
  }

  lemma {:induction false} GrownAppend(t: string, c: char, n: nat)
    requires AllDigits(t)
    requires Digit(c)
    ensures Grown(t + [c], n) == 10 * Grown(t, n) + Worth(c)
    decreases |t|
  {
    var u := t + [c];
    if t == [] {
      assert u[1..] == [];
    } else {
      assert u[1..] == t[1..] + [c];
      GrownAppend(t[1..], c, 10 * n + Worth(t[0]));
    }
  }

  lemma {:induction false} NumeralGrows(n: nat)
    ensures Grown(Numeral(n), 0) == n
  {
    if n < 10 {
      assert Numeral(n)[1..] == [];
    } else {
      NumeralGrows(n / 10);
      GrownAppend(Numeral(n / 10), Figure(n % 10), 0);
    }
  }

  lemma {:induction false} IndexReads(path: string, pos: nat, t: string, n: nat)
    requires AllDigits(t)
    requires pos + |t| < |path| && path[pos..pos + |t|] == t && path[pos + |t|] == ']'
    ensures IndexAt(path, pos, n) == Grown(t, n) && IndexEnd(path, pos) == pos + |t|
    decreases |t|
  {
    if t != [] {
      assert path[pos] == t[0] && path[pos + 1..pos + |t|] == t[1..];
      IndexReads(path, pos + 1, t[1..], 10 * n + Worth(t[0]));
    }
  }

  // ----- The text of a path -------------------------------------------------------------------------------

  function PartText(p: Part): (t: string)
    ensures t != []
  {
    match p
    case Name(k) => ['.'] + k
    case Index(n) => ['['] + Numeral(n) + [']']
  }

  function PartsText(parts: seq<Part>): string {
    if parts == [] then [] else PartText(parts[0]) + PartsText(parts[1..])
  }

  function PathTo(parts: seq<Part>): string {
    ['$'] + PartsText(parts)
  }

  lemma PathPrints()
    ensures PathTo([]) == "$" && PathTo([Name("a"), Index(10), Name("b")]) == "$.a[10].b"
  {
    hide Numeral, PartsText;
    TenPrints();
    NoPartsPrint();
    var a, ten, b := Name("a"), Index(10), Name("b");
    PartsPrint(b, [], "");
    assert [b] + [] == [b] && PartText(b) + "" == ".b";
    PartsPrint(ten, [b], ".b");
    assert [ten] + [b] == [ten, b] && PartText(ten) + ".b" == "[10].b";
    PartsPrint(a, [ten, b], "[10].b");
    assert [a] + [ten, b] == [a, ten, b] && PartText(a) + "[10].b" == ".a[10].b";
  }

  lemma TenPrints()
    ensures Numeral(10) == "10"
  {
    assert Numeral(1) == "1";
  }

  lemma NoPartsPrint()
    ensures PartsText([]) == ""
  {}

  lemma PartsPrint(part: Part, parts: seq<Part>, behind: string)
    requires PartsText(parts) == behind
    ensures PartsText([part] + parts) == PartText(part) + behind
  {
    hide PartText;
    assert ([part] + parts)[1..] == parts;
  }

  /** Where part `j` of the path begins, or the path ends. */
  function PosOf(parts: seq<Part>, j: nat): nat
    requires j <= |parts|
  {
    if j == 0 then 1 else PosOf(parts, j - 1) + |PartText(parts[j - 1])|
  }

  lemma {:induction false} PathFrom(parts: seq<Part>, j: nat)
    requires j <= |parts|
    ensures PosOf(parts, j) <= |PathTo(parts)| && PathTo(parts)[PosOf(parts, j)..] == PartsText(parts[j..])
    decreases j
  {
    hide PartText;
    if j == 0 {
      assert parts[0..] == parts;
    } else {
      PathFrom(parts, j - 1);
      var rest := PathTo(parts)[PosOf(parts, j - 1)..];
      assert parts[j - 1..][1..] == parts[j..];
      assert rest == PartText(parts[j - 1]) + PartsText(parts[j..]);
      assert rest[|PartText(parts[j - 1])|..] == PartsText(parts[j..]);
      assert PathTo(parts)[PosOf(parts, j)..] == rest[|PartText(parts[j - 1])|..];
    }
  }

  lemma {:induction false} PartEnds(path: string, pos: nat, k: string)
    requires IsPart(k) && pos + |k| <= |path| && path[pos..pos + |k|] == k
    requires pos + |k| == |path| || EndsPart(path[pos + |k|])
    ensures PartLength(path, pos) == |k|
    decreases |k|
  {
    if k != [] {
      assert path[pos] == k[0];
      assert path[pos + 1..pos + |k|] == k[1..];
      PartEnds(path, pos + 1, k[1..]);
    }
  }

  /** A piece at `pos`, and what follows it. */
  lemma CutAt(path: string, pos: nat, t: string, tail: string)
    requires pos <= |path| && path[pos..] == t + tail
    ensures pos + |t| <= |path| && path[pos..pos + |t|] == t && path[pos + |t|..] == tail
  {
    assert path[pos..][..|t|] == t && path[pos..][|t|..] == tail;
  }

  lemma TextStarts(parts: seq<Part>)
    ensures parts != [] ==> PartsText(parts) != [] && EndsPart(PartsText(parts)[0])
  {}

  /** What mjson_get_cb sees at part `j` of the path. */
  predicate Stands(path: string, pos: nat, p: Part) {
    match p
    case Name(k) => PathChar(path, pos) == '.' && PartLength(path, pos + 1) == |k| && pos + 1 + |k| <= |path|
                    && path[pos + 1..pos + 1 + |k|] == k
    case Index(n) => PathChar(path, pos) == '[' && IndexAt(path, pos + 1, 0) == n
                     && IndexEnd(path, pos) + 1 == pos + |PartText(p)| && (n == 0 ==> |PartText(p)| == 3)
  }

  lemma NameStands(path: string, pos: nat, k: string, tail: string)
    requires IsPart(k) && pos <= |path| && path[pos..] == ['.'] + k + tail && (tail != [] ==> EndsPart(tail[0]))
    ensures Stands(path, pos, Name(k))
  {
    assert ['.'] + k + tail == ['.'] + (k + tail);
    CutAt(path, pos, ['.'], k + tail);
    CutAt(path, pos + 1, k, tail);
    assert tail != [] ==> path[pos + 1 + |k|] == path[pos + 1 + |k|..][0];
    PartEnds(path, pos + 1, k);
  }

  /** Where the figures of an index stand. */
  lemma IndexLies(path: string, pos: nat, t: string, tail: string)
    requires pos <= |path| && path[pos..] == ['['] + t + [']'] + tail
    ensures pos + 1 + |t| < |path| && path[pos] == '[' && path[pos + 1..pos + 1 + |t|] == t
            && path[pos + 1 + |t|] == ']'
  {
    assert ['['] + t + [']'] + tail == ['['] + (t + ([']'] + tail));
    CutAt(path, pos, ['['], t + ([']'] + tail));
    CutAt(path, pos + 1, t, [']'] + tail);
    assert path[pos] == path[pos..][0] && path[pos + 1 + |t|] == path[pos + 1 + |t|..][0];
  }

  lemma IndexStands(path: string, pos: nat, n: nat, tail: string)
    requires pos <= |path| && path[pos..] == PartText(Index(n)) + tail
    ensures Stands(path, pos, Index(n))
  {
    hide Numeral, Grown;
    var t := Numeral(n);
    IndexLies(path, pos, t, tail);
    IndexReads(path, pos + 1, t, 0);
    NumeralGrows(n);
    ZeroIsShort();
  }

  lemma ZeroIsShort()
    ensures |Numeral(0)| == 1
  {}

  lemma PathAt(parts: seq<Part>, j: nat)
    requires AreNamed(parts) && j <= |parts|
    ensures var path, pos := PathTo(parts), PosOf(parts, j);
            if j == |parts| then PathChar(path, pos) == NUL else Stands(path, pos, parts[j])
  {
    hide PosOf, PartsText, PathTo, PartLength, IsPart, Stands;
    PathFrom(parts, j);
    var path, pos := PathTo(parts), PosOf(parts, j);
    if j < |parts| {
      var tail := PartsText(parts[j + 1..]);
      FirstPart(parts[j..]);
      assert parts[j..][1..] == parts[j + 1..];
      TextStarts(parts[j + 1..]);
      NoText();
      match parts[j]
      case Name(k) => NameStands(path, pos, k, tail);
      case Index(n) => IndexStands(path, pos, n, tail);
    } else {
      NoText();
      assert parts[j..] == [];
    }
  }

  lemma FirstPart(parts: seq<Part>)
    requires parts != []
    ensures PartsText(parts) == PartText(parts[0]) + PartsText(parts[1..])
  {}

  lemma NoText()
    ensures PartsText([]) == []
  {}
}

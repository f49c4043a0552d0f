/**
 The lexical part of the JSON scanner (libs/mjson.c): escapes, strings and numbers. A text is a
 sequence of byte-sized characters.
 */
module MjsonText {
  const QUOTE: char := '"'
  const BACKSLASH: char := '\\'
  const NUL: char := '\0'

  const ESC1: string := "\U{8}\U{c}\n\r\t\\\""
  const ESC2: string := "bfnrt\\\""

  /** mjson_esc with the table `from`, and its partner `to`; NUL when `c` is not in it. */
  function Translate(c: char, from: string, to: string): char
    requires |from| == |to|
  {
    if from == [] then NUL else if from[0] == c then to[0] else Translate(c, from[1..], to[1..])
  }

  /** mjson_esc(c, 1): the letter that stands for `c` behind a backslash. */
  function Esc(c: char): char {
    Translate(c, ESC1, ESC2)
  }

  /** mjson_esc(c, 0): the character a letter behind a backslash stands for. */
  function Unesc(c: char): char {
    Translate(c, ESC2, ESC1)
  }

  lemma EscTable(c: char)
    ensures Esc(c) == match c
                      case '\U{8}' => 'b'
                      case '\U{c}' => 'f'
                      case '\n' => 'n'
                      case '\r' => 'r'
                      case '\t' => 't'
                      case '\\' => '\\'
                      case '"' => '"'
                      case _ => NUL
    ensures Unesc(c) == match c
                        case 'b' => '\U{8}'
                        case 'f' => '\U{c}'
                        case 'n' => '\n'
                        case 'r' => '\r'
                        case 't' => '\t'
                        case '\\' => '\\'
                        case '"' => '"'
                        case _ => NUL
  {
    Seven(ESC1, ESC2, c);
    Seven(ESC2, ESC1, c);
  }

  lemma Seven(from: string, to: string, c: char)
    requires |from| == |to| == 7
    ensures Translate(c, from, to) == if c == from[0] then to[0]
                                      else if c == from[1] then to[1] else if c == from[2] then to[2]
                                      else Translate(c, from[3..], to[3..])
    ensures Translate(c, from[3..], to[3..]) == if c == from[3] then to[3] else if c == from[4] then to[4]
                                                else if c == from[5] then to[5] else if c == from[6] then to[6] else NUL
  {
    assert from[1..][1..] == from[2..] && to[1..][1..] == to[2..];
    assert from[2..][1..] == from[3..] && to[2..][1..] == to[3..];
    assert Translate(c, from[2..], to[2..]) == if c == from[2] then to[2] else Translate(c, from[3..], to[3..]);
    assert Translate(c, from[1..], to[1..]) == if c == from[1] then to[1] else Translate(c, from[2..], to[2..]);
    Four(from[3..], to[3..], c);
  }

  lemma Four(from: string, to: string, c: char)
    requires |from| == |to| == 4
    ensures Translate(c, from, to) == if c == from[0] then to[0]
                                      else if c == from[1] then to[1] else if c == from[2] then to[2]
                                      else if c == from[3] then to[3] else NUL
  {
    assert from[1..][1..] == from[2..] && to[1..][1..] == to[2..];
    assert from[2..][1..] == from[3..] && to[2..][1..] == to[3..];
    assert from[3..][1..] == [] && to[3..][1..] == [];
    assert Translate(c, from[3..], to[3..]) == if c == from[3] then to[3] else NUL;
    assert Translate(c, from[2..], to[2..]) == if c == from[2] then to[2] else Translate(c, from[3..], to[3..]);
    assert Translate(c, from[1..], to[1..]) == if c == from[1] then to[1] else Translate(c, from[2..], to[2..]);
  }

  // ----- Strings ------------------------------------------------------------------------------------------

  const INVALID_INPUT: int := -1

  /** mjson_pass_string: where the closing quote is. */
  function PassString(s: string): (n: int)
    ensures INVALID_INPUT <= n < |s|
    decreases |s|
  {
    if s == [] then INVALID_INPUT
    else if s[0] == BACKSLASH && |s| > 1 && Esc(s[1]) != NUL then Farther(2, PassString(s[2..]))
    else if s[0] == NUL then INVALID_INPUT
    else if s[0] == QUOTE then 0
    else Farther(1, PassString(s[1..]))
  }

  function Farther(k: nat, n: int): int {
    if n < 0 then n else k + n
  }

  /** The inside of a JSON string: a backslash takes the next character with it. */
  predicate Body(b: string)
    decreases |b|
  {
    b != [] ==>
      if b[0] == BACKSLASH then |b| > 1 && b[1] != NUL && Body(b[2..])
      else b[0] != QUOTE && b[0] != NUL && Body(b[1..])
  }

  /** The scanner passes a string up to its closing quote, although it knows only some of the escapes. */
  lemma {:induction false} BodyIsPassed(b: string, rest: string)
    requires Body(b)
    ensures PassString(b + [QUOTE] + rest) == |b|
    decreases |b|
  {
    var s := b + [QUOTE] + rest;
    if b == [] {
    } else if b[0] == BACKSLASH {
      EscTable(b[1]);
      assert s[2..] == b[2..] + [QUOTE] + rest;
      BodyIsPassed(b[2..], rest);
      assert s[1..][1..] == s[2..];
      assert s[1] == b[1];
    } else {
      assert s[1..] == b[1..] + [QUOTE] + rest;
      BodyIsPassed(b[1..], rest);
    }
  }

  /** A text with its special characters escaped. */
  function Escape(x: string): string {
    if x == [] then [] else (if Esc(x[0]) != NUL then [BACKSLASH, Esc(x[0])] else [x[0]]) + Escape(x[1..])
  }

  lemma {:induction false} EscapeIsBody(x: string)
    requires NUL !in x
    ensures Body(Escape(x))
    decreases |x|
  {
    if x != [] {
      EscTable(x[0]);
      EscapeIsBody(x[1..]);
      var e := Escape(x);
      if Esc(x[0]) != NUL {
        assert e[2..] == Escape(x[1..]);
      } else {
        assert e[1..] == Escape(x[1..]);
      }
    }
  }

  datatype Unescaped = Unescaped(text: string) | Refused

  /** mjson_unescape into a buffer with `n` bytes left, one of them for the terminating NUL. */
  function Unescape(s: string, n: nat): Unescaped
    decreases |s|
  {
    if n == 0 then Refused
    else if s == [] then Unescaped([])
    else if s[0] == BACKSLASH && |s| > 1 then
      if Unesc(s[1]) == NUL then Refused else Behind(Unesc(s[1]), Unescape(s[2..], n - 1))
    else Behind(s[0], Unescape(s[1..], n - 1))
  }

  function Behind(c: char, u: Unescaped): Unescaped {
    match u case Refused => Refused case Unescaped(t) => Unescaped([c] + t)
  }

  /** Escaping and unescaping is the identity exactly when the buffer is longer than the text. */
  lemma {:induction false} UnescapeEscape(x: string, n: nat)
    requires NUL !in x
    ensures Unescape(Escape(x), n) == if n > |x| then Unescaped(x) else Refused
    decreases |x|
  {
    hide Translate;
    if x != [] && n > 0 {
      EscTable(x[0]);
      var e := Escape(x);
      UnescapeEscape(x[1..], n - 1);
      if Esc(x[0]) != NUL {
        EscTable(Esc(x[0]));
        assert e[2..] == Escape(x[1..]);
      } else {
        assert e[1..] == Escape(x[1..]);
      }
      assert [x[0]] + x[1..] == x;
    }
  }

  /** The string round trip of the library. */
  lemma StringRoundTrip(x: string, n: nat, rest: string)
    requires NUL !in x
    ensures PassString(Escape(x) + [QUOTE] + rest) == |Escape(x)|
    ensures Unescape(Escape(x), n) == if n > |x| then Unescaped(x) else Refused
  {
    EscapeIsBody(x);
    BodyIsPassed(Escape(x), rest);
    UnescapeEscape(x, n);
  }

  // ----- The strings that are read back -------------------------------------------------------------------

  predicate HexDigit(c: char) {
    '0' <= c <= '9' || 'a' <= c <= 'f' || 'A' <= c <= 'F'
  }

  /** What an escape of one letter stands for by section 7 of RFC 8259; NUL if there is no such escape. */
  function Meaning(c: char): char {
    match c
    case '"' => '"'
    case '\\' => '\\'
    case '/' => '/'
    case 'b' => '\U{8}'
    case 'f' => '\U{c}'
    case 'n' => '\n'
    case 'r' => '\r'
    case 't' => '\t'
    case _ => NUL
  }

  /** The inside of a string by section 7 of RFC 8259. */
  predicate JsonBody(b: string)
    decreases |b|
  {
    b != [] ==>
      if b[0] != BACKSLASH then b[0] != QUOTE && b[0] as int >= 0x20 && JsonBody(b[1..])
      else if |b| > 1 && b[1] == 'u' then
        |b| >= 6 && HexDigit(b[2]) && HexDigit(b[3]) && HexDigit(b[4]) && HexDigit(b[5]) && JsonBody(b[6..])
      else |b| > 1 && Meaning(b[1]) != NUL && JsonBody(b[2..])
  }

  /** No escape is that of the slash or of a code point. */
  predicate Simple(b: string)
    decreases |b|
  {
    b != [] ==>
      if b[0] != BACKSLASH then Simple(b[1..]) else |b| > 1 && b[1] != '/' && b[1] != 'u' && Simple(b[2..])
  }

  /** The text such a string stands for. */
  function Spelt(b: string): string
    decreases |b|
  {
    if b == [] then []
    else if b[0] == BACKSLASH && |b| > 1 then [Meaning(b[1])] + Spelt(b[2..])
    else [b[0]] + Spelt(b[1..])
  }

  lemma KnownEscapes(c: char)
    ensures Unesc(c) == if c == '/' then NUL else Meaning(c)
  {
    EscTable(c);
  }

  /**
   mjson_unescape reads a JSON string exactly if none of its escapes is that of the slash or of a code point, and the
   buffer is longer than its text. It refuses all others.
   */
  lemma {:induction false} ReadsIff(b: string, n: nat)
    requires JsonBody(b)
    ensures Unescape(b, n) == if Simple(b) && n > |Spelt(b)| then Unescaped(Spelt(b)) else Refused
    decreases |b|
  {
    hide Unesc, Meaning;
    if b != [] && n > 0 {
      if b[0] != BACKSLASH {
        ReadsIff(b[1..], n - 1);
      } else {
        KnownEscapes(b[1]);
        NoCodePoint();
        if b[1] != 'u' { ReadsIff(b[2..], n - 1); }
      }
    }
  }

  lemma NoCodePoint()
    ensures Meaning('u') == NUL
  {}

  // ----- Numbers ------------------------------------------------------------------------------------------

  predicate Digit(c: char) {
    '0' <= c <= '9'
  }

  function Digits(s: string): (n: nat)
    ensures n <= |s|
  {
    if s != [] && Digit(s[0]) then 1 + Digits(s[1..]) else 0
  }

  function SignSpan(s: string): (n: nat)
    ensures n <= |s|
  {
    if s != [] && s[0] == '-' then 1 else 0
  }

  function FractionSpan(s: string): (n: nat)
    ensures n <= |s|
  {
    if s != [] && s[0] == '.' then 1 + Digits(s[1..]) else 0
  }

  /** How much of `s` strtod takes: the decimal numbers of C, longest match. 0 when there is no number. */
  function NumberSpan(s: string): (n: nat)
    ensures n <= |s|
  {
    var a := SignSpan(s);
    var d := Digits(s[a..]);
    var f := FractionSpan(s[a + d..]);
    if d == 0 && f <= 1 then 0 else a + d + f + ExponentSpan(s[a + d + f..])
  }

  function ExponentSpan(s: string): (n: nat)
    ensures n <= |s|
  {
    if s == [] || (s[0] != 'e' && s[0] != 'E') then 0
    else
      var r := if |s| > 1 && (s[1] == '+' || s[1] == '-') then 2 else 1;
      var e := Digits(s[r..]);
      if e == 0 then 0 else r + e
  }

  /** A text strtod takes whole. Every number of RFC 8259, section 6, is one. */
  predicate Number(t: string) {
    t != [] && (t[0] == '-' || Digit(t[0])) && NumberSpan(t) == |t|
  }

  /** What follows cannot belong to a number. */
  predicate Delimits(s: string) {
    s == [] || !(Digit(s[0]) || s[0] == '.' || s[0] == 'e' || s[0] == 'E' || s[0] == '+' || s[0] == '-')
  }

  lemma {:induction false} DigitsStop(t: string, rest: string)
    requires Delimits(rest)
    ensures Digits(t + rest) == Digits(t)
    decreases |t|
  {
    if t == [] {
      assert t + rest == rest;
    } else {
      assert (t + rest)[1..] == t[1..] + rest;
      DigitsStop(t[1..], rest);
    }
  }

  lemma ExponentStops(t: string, rest: string)
    requires Delimits(rest)
    ensures ExponentSpan(t + rest) == ExponentSpan(t)
  {
    var s := t + rest;
    if t == [] {
      assert s == rest;
    } else {
      var r := if |t| > 1 && (t[1] == '+' || t[1] == '-') then 2 else 1;
      assert s[r..] == t[r..] + rest;
      DigitsStop(t[r..], rest);
    }
  }

  lemma FractionStops(t: string, rest: string)
    requires Delimits(rest)
    ensures FractionSpan(t + rest) == FractionSpan(t)
  {
    if t == [] {
      assert t + rest == rest;
    } else {
      assert (t + rest)[1..] == t[1..] + rest;
      DigitsStop(t[1..], rest);
    }
  }

  lemma Beyond(t: string, rest: string, k: nat)
    requires k <= |t|
    ensures (t + rest)[k..] == t[k..] + rest
  {}

  lemma NumberStops(t: string, rest: string)
    requires Number(t) && Delimits(rest)
    ensures NumberSpan(t + rest) == |t|
  {
    hide Digits, FractionSpan, ExponentSpan, Digit, Delimits;
    var a := SignSpan(t);
    var d := Digits(t[a..]);
    var f := FractionSpan(t[a + d..]);
    Beyond(t, rest, a);
    Beyond(t, rest, a + d);
    Beyond(t, rest, a + d + f);
    DigitsStop(t[a..], rest);
    FractionStops(t[a + d..], rest);
    ExponentStops(t[a + d + f..], rest);
  }

  /** The numbers of RFC 8259, section 6: a sign, digits, and optionally a fraction and an exponent. */
  predicate JsonNumber(t: string, sign: string, whole: string, fraction: string, exponent: string) {
    && t == sign + whole + fraction + exponent
    && (sign == "" || sign == "-")
    && whole != [] && Digits(whole) == |whole|
    && (fraction == [] || (|fraction| > 1 && fraction[0] == '.' && Digits(fraction[1..]) == |fraction| - 1))
    && (exponent == [] || (exponent[0] in "eE" && ExponentSpan(exponent) == |exponent|))
  }

  lemma {:induction false} AllDigits(t: string, rest: string)
    requires Digits(t) == |t| && (rest == [] || !Digit(rest[0]))
    ensures Digits(t + rest) == |t|
    decreases |t|
  {
    if t == [] {
      assert t + rest == rest;
    } else {
      assert (t + rest)[1..] == t[1..] + rest;
      AllDigits(t[1..], rest);
    }
  }

  lemma FirstDigit(t: string)
    requires t != [] && Digits(t) == |t|
    ensures Digit(t[0])
  {}

  lemma Cuts(sign: string, whole: string, fraction: string, exponent: string)
    requires |sign| <= 1 && whole != []
    ensures var t := sign + whole + fraction + exponent;
            && t[0] == (if sign == [] then whole[0] else sign[0])
            && t[|sign|..] == whole + (fraction + exponent) && t[|sign| + |whole|..] == fraction + exponent
            && t[|sign| + |whole| + |fraction|..] == exponent
  {}

  lemma WholeDigits(whole: string, behind: string)
    requires whole != [] && Digits(whole) == |whole| && (behind == [] || !Digit(behind[0]))
    ensures Digit(whole[0]) && Digits(whole + behind) == |whole|
  {
    FirstDigit(whole);
    AllDigits(whole, behind);
  }

  lemma WholeFraction(fraction: string, exponent: string)
    requires fraction == [] || (|fraction| > 1 && fraction[0] == '.' && Digits(fraction[1..]) == |fraction| - 1)
    requires exponent == [] || exponent[0] in "eE"
    ensures FractionSpan(fraction + exponent) == |fraction|
  {
    if fraction == [] {
      assert fraction + exponent == exponent;
    } else {
      NotADigit([], exponent);
      assert (fraction + exponent)[1..] == fraction[1..] + exponent;
      AllDigits(fraction[1..], exponent);
    }
  }

  lemma JsonNumberIsNumber(t: string, sign: string, whole: string, fraction: string, exponent: string)
    requires JsonNumber(t, sign, whole, fraction, exponent)
    ensures Number(t)
  {
    hide ExponentSpan, FractionSpan, Digits, Digit;
    Cuts(sign, whole, fraction, exponent);
    NotADigit(fraction, exponent);
    WholeDigits(whole, fraction + exponent);
    WholeFraction(fraction, exponent);
    NotMinus(whole[0]);
    EmptyExponent();
  }

  lemma NotADigit(fraction: string, exponent: string)
    requires fraction == [] || fraction[0] == '.'
    requires exponent == [] || exponent[0] in "eE"
    ensures fraction + exponent == [] || !Digit((fraction + exponent)[0])
    ensures exponent == [] || !Digit(exponent[0])
  {}

  lemma NotMinus(c: char)
    requires Digit(c)
    ensures c != '-'
  {}

  lemma EmptyExponent()
    ensures ExponentSpan([]) == 0
  {}
}

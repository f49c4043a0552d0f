/**
 The port cache of the module manager (module_manager.c, update_values and set_port_value): a pass over all ports as
 a function of what the modules answer, the loops that carry it out, and when cache and ports agree afterwards.
 */
module ModuleManager {
  import opened Wrappers

  // ----- Numbers as text ----------------------------------------------------------------------------------

  function Digit(d: nat): char
    requires d < 10
  {
    "0123456789"[d]
  }

  function Natural(n: nat): string {
    if n < 10 then [Digit(n)] else Natural(n / 10) + [Digit(n % 10)]
  }

  /** sprintf "%d" */
  function Decimal(n: int): string {
    if n < 0 then ['-'] + Natural(-n) else Natural(n)
  }

  predicate IsDigit(c: char) {
    48 <= c as int <= 57
  }

  function DigitValue(c: char): (d: nat)
    requires IsDigit(c)
    ensures d < 10
  {
    c as int - 48
  }

  /** The digits at the start of `s`, when they continue the number `n`. */
  function ScanDigits(s: string, n: nat): nat {
    if s == [] || !IsDigit(s[0]) then n else ScanDigits(s[1..], 10 * n + DigitValue(s[0]))
  }

  predicate IsBlank(c: char) {
    c == ' ' || 9 <= c as int <= 13
  }

  function SkipBlanks(s: string): string {
    if s != [] && IsBlank(s[0]) then SkipBlanks(s[1..]) else s
  }

  /** sscanf "%d": blanks, a sign, digits; numbers of any size. */
  function ScanInt(s: string): Option<int> {
    var t := SkipBlanks(s);
    var signed := t != [] && (t[0] == '-' || t[0] == '+');
    var digits := if signed then t[1..] else t;
    if digits == [] || !IsDigit(digits[0]) then None
    else if signed && t[0] == '-' then Some(0 - ScanDigits(digits, 0)) else Some(ScanDigits(digits, 0))
  }

  lemma {:induction false} ScanAppend(s: string, d: char, n: nat)
    requires forall i :: 0 <= i < |s| ==> IsDigit(s[i])
    requires IsDigit(d)
    ensures ScanDigits(s + [d], n) == 10 * ScanDigits(s, n) + DigitValue(d)
    decreases |s|
  {
    if s == [] {
      assert s + [d] == [d] && [d][1..] == [];
    } else {
      assert (s + [d])[1..] == s[1..] + [d];
      ScanAppend(s[1..], d, 10 * n + DigitValue(s[0]));
    }
  }

  lemma DigitIsDigit(d: nat)
    requires d < 10
    ensures IsDigit(Digit(d)) && DigitValue(Digit(d)) == d
  {}

  lemma {:induction false} NaturalScans(n: nat)
    ensures Natural(n) != [] && (forall i :: 0 <= i < |Natural(n)| ==> IsDigit(Natural(n)[i]))
            && ScanDigits(Natural(n), 0) == n
    decreases n
  {
    if n < 10 {
      DigitIsDigit(n);
      assert [Digit(n)][1..] == [];
    } else {
      NaturalScans(n / 10);
      DigitIsDigit(n % 10);
      ScanAppend(Natural(n / 10), Digit(n % 10), 0);
    }
  }

  /** What was printed is read back. */
  lemma DecimalScans(n: int)
    ensures Decimal(n) != [] && ScanInt(Decimal(n)) == Some(n)
  {
    if n < 0 {
      NaturalScans(-n);
      assert Decimal(n)[1..] == Natural(-n) && Decimal(n)[1] == Natural(-n)[0];
    } else {
      NaturalScans(n);
    }
  }

  lemma DecimalPrints()
    ensures Decimal(0) == "0" && Decimal(120) == "120" && Decimal(-45) == "-45"
  {
    assert Natural(1) == "1" && Natural(12) == "12" && Natural(120) == "120" && Natural(45) == "45";
  }

  /** What `sscanf` takes for a number, behind any blanks and in front of anything but a digit. */
  lemma NumberIsScanned(blanks: string, n: int, rest: string)
    requires forall i :: 0 <= i < |blanks| ==> blanks[i] in " \t\n\U{b}\U{c}\r"
    requires rest == [] || rest[0] !in "0123456789"
    ensures ScanInt(blanks + Decimal(n) + rest) == Some(n)
    ensures n >= 0 ==> ScanInt(blanks + ['+'] + Decimal(n) + rest) == Some(n)
  {
    hide SkipBlanks, Natural;
    SignedIsScanned(blanks, n, rest);
    if n >= 0 { PlusIsScanned(blanks, n, rest); }
  }

  lemma SignedIsScanned(blanks: string, n: int, rest: string)
    requires forall i :: 0 <= i < |blanks| ==> IsBlank(blanks[i])
    requires rest == [] || !IsDigit(rest[0])
    ensures ScanInt(blanks + Decimal(n) + rest) == Some(n)
  {
    hide SkipBlanks, Natural;
    var k := if n < 0 then -n else n;
    NaturalScans(k);
    var text := Decimal(n) + rest;
    assert blanks + Decimal(n) + rest == blanks + text;
    assert text[0] == Decimal(n)[0];
    BlanksSkipped(blanks, text);
    ScanEnds(Natural(k), rest, 0);
    if n < 0 { assert text[1..] == Natural(k) + rest; }
  }

  lemma PlusIsScanned(blanks: string, n: nat, rest: string)
    requires forall i :: 0 <= i < |blanks| ==> IsBlank(blanks[i])
    requires rest == [] || !IsDigit(rest[0])
    ensures ScanInt(blanks + ['+'] + Decimal(n) + rest) == Some(n)
  {
    hide SkipBlanks, Natural;
    NaturalScans(n);
    var text := ['+'] + Natural(n) + rest;
    assert blanks + ['+'] + Decimal(n) + rest == blanks + text;
    BlanksSkipped(blanks, text);
    ScanEnds(Natural(n), rest, 0);
    assert text[1..] == Natural(n) + rest;
  }

  lemma {:induction false} BlanksSkipped(blanks: string, text: string)
    requires (forall i :: 0 <= i < |blanks| ==> IsBlank(blanks[i])) && text != [] && !IsBlank(text[0])
    ensures SkipBlanks(blanks + text) == text
    decreases |blanks|
  {
    if blanks == [] {
      assert blanks + text == text;
    } else {
      assert (blanks + text)[1..] == blanks[1..] + text;
      BlanksSkipped(blanks[1..], text);
    }
  }

  lemma {:induction false} ScanEnds(t: string, rest: string, n: nat)
    requires (forall i :: 0 <= i < |t| ==> IsDigit(t[i])) && (rest == [] || !IsDigit(rest[0]))
    ensures ScanDigits(t + rest, n) == ScanDigits(t, n)
    decreases |t|
  {
    if t == [] {
      assert t + rest == rest;
    } else {
      assert (t + rest)[1..] == t[1..] + rest;
      ScanEnds(t[1..], rest, 10 * n + DigitValue(t[0]));
    }
  }

  /** Where there is no number in front, there is none. */
  lemma NoNumberIsScanned(c: char, rest: string)
    requires c !in "0123456789+- \t\n\U{b}\U{c}\r"
    ensures ScanInt([c] + rest) == None && ScanInt([]) == None
    ensures ScanInt(['-', c] + rest) == None && ScanInt(['+', c] + rest) == None
  {
    NotADigit(c);
    assert ['-', c] + rest == ['-'] + ([c] + rest) && ['+', c] + rest == ['+'] + ([c] + rest);
  }

  lemma NotADigit(c: char)
    ensures IsDigit(c) <==> c in "0123456789"
    ensures IsBlank(c) <==> c in " \t\n\U{b}\U{c}\r"
  {}

  // ----- Channels -----------------------------------------------------------------------------------------

  /** channel_desc_t; the values are the cache. Float channels are not part of this model. */
  datatype Channel = Channel(kind: char, min: int, max: int, values: seq<int>, modes: seq<char>)

  /** A channel as the module keeps it. */
  datatype Remote = Remote(binary: bool, ports: seq<int>)

  predicate Shaped(ch: Channel, r: Remote) {
    |ch.values| == |ch.modes| == |r.ports|
  }

  predicate Matching(ch: Channel, r: Remote) {
    && Shaped(ch, r)
    && (ch.kind == 'B' || ch.kind == 'I' || ch.kind == 'T')
    && (ch.kind == 'B' <==> r.binary)
    && (r.binary ==> |r.ports| < 50 && forall p :: 0 <= p < |r.ports| ==> r.ports[p] == 0 || r.ports[p] == 1)
    && forall p :: 0 <= p < |ch.modes| ==> ch.modes[p] == 'N' || ch.modes[p] == 'R' || ch.modes[p] == 'W'
  }

  /** `d` is `v` cut to the range of the channel; of a range that is empty only the maximum counts. */
  predicate IsCut(ch: Channel, v: int, d: int) {
    if ch.kind == 'B' then d == 0 <==> v == 0
    else if ch.max < ch.min || v > ch.max then d == ch.max
    else if v < ch.min then d == ch.min
    else d == v
  }

  /** A value the module is told as it is. */
  predicate InRange(ch: Channel, v: int) {
    if ch.kind == 'B' then v == 0 || v == 1
    else ch.min <= v <= ch.max || (ch.max < ch.min && v == ch.max)
  }

  /** What a module is told when the cache says `v`. */
  function Told(ch: Channel, v: int): (d: int)
    ensures IsCut(ch, v, d) && (ch.kind == 'B' ==> d == 0 || d == 1)
  {
    if ch.kind == 'B' then (if v == 0 then 0 else 1)
    else
      var low := if v < ch.min then ch.min else v;
      if low > ch.max then ch.max else low
  }

  function WithValue(ch: Channel, p: nat, v: int): Channel
    requires p < |ch.values|
  {
    ch.(values := ch.values[p := v])
  }

  function WithPort(r: Remote, p: nat, d: int): Remote
    requires p < |r.ports|
  {
    r.(ports := r.ports[p := d])
  }

  // ----- The bus ------------------------------------------------------------------------------------------

  const NAK: char := '\U{15}'
  const NUL: char := '\0'

  /**
   What becomes of a command. A reply that is lost, or is not the one that is due, leaves open whether a write was
   carried out; the text of the latter is what the receive buffer then holds.
   */
  datatype Fault = Fine | Lost(applied: bool) | Refused | Garbled(text: string, applied: bool)

  datatype Reply = CommError | Content(text: string)

  /** The reply to a command that should be answered with `text`. */
  function Answer(f: Fault, text: string): Reply {
    match f
    case Fine => Content(text)
    case Lost(_) => CommError
    case Refused => Content([NAK])
    case Garbled(t, _) => Content(t)
  }

  /** Is a write carried out? */
  predicate Applied(f: Fault) {
    f == Fine || ((f.Lost? || f.Garbled?) && f.applied)
  }

  /** Every reply is the one that is due, a refusal, or lost. */
  ghost predicate Honest(fault: nat -> Fault) {
    forall k: nat :: !fault(k).Garbled?
  }

  predicate IsNak(text: string) {
    text != [] && text[0] == NAK
  }

  /** A reply without error. */
  predicate Good(reply: Reply) {
    reply.Content? && !IsNak(reply.text)
  }

  function Bit(v: int): char {
    if v == 0 then '0' else '1'
  }

  /** What a binary port is taken for, by place `p` of a reply. */
  function BitAt(text: string, p: nat): int {
    if p < |text| && text[p] == '0' then 0 else 1
  }

  /** What a port says about its value. */
  function PortText(r: Remote, p: nat): string
    requires p < |r.ports|
  {
    if r.binary then [Bit(r.ports[p])] else Decimal(r.ports[p])
  }

  /** What a binary channel says about all of its ports. */
  function BulkText(r: Remote): string {
    seq(|r.ports|, p requires 0 <= p < |r.ports| => Bit(r.ports[p]))
  }

  // ----- A pass as a function -----------------------------------------------------------------------------

  /** The commands sent so far, and the errors counted. */
  datatype Ledger = Ledger(at: nat, comm: nat, op: nat) {
    function Errors(): nat {
      comm + op
    }

    /** One more command, and the error its reply stands for. */
    function Charge(reply: Reply): Ledger {
      var lost, refused := reply.CommError?, reply.Content? && IsNak(reply.text);
      Ledger(at + 1, comm + if lost then 1 else 0, op + if refused then 1 else 0)
    }
  }

  /** What a read says about a port: a value, nothing that can be read, or an error that was counted. */
  datatype Heard = Value(value: int) | Unclear | Failed

  /** What a reply to command R says. */
  function Hear(kind: char, reply: Reply): Heard {
    if !Good(reply) then Failed
    else if kind == 'B' then Value(BitAt(reply.text, 0))
    else match ScanInt(reply.text) case Some(x) => Value(x) case None => Unclear
  }

  /** A reply that does not come, or one that starts with NAK, is counted, as what it is; all else is read. */
  lemma ReplyIsJudged(kind: char, reply: Reply, l: Ledger)
    ensures reply == CommError ==> Hear(kind, reply) == Failed && l.Charge(reply) == Ledger(l.at + 1, l.comm + 1, l.op)
    ensures reply.Content? && reply.text != [] && reply.text[0] == '\U{15}'
            ==> Hear(kind, reply) == Failed && l.Charge(reply) == Ledger(l.at + 1, l.comm, l.op + 1)
    ensures reply.Content? && (reply.text == [] || reply.text[0] != '\U{15}')
            ==> Hear(kind, reply) != Failed && l.Charge(reply) == Ledger(l.at + 1, l.comm, l.op)
  {
    hide ScanInt;
  }

  /** The value of port `p`, from the reply to the bulk read if there is one. */
  function ReadPort(fault: nat -> Fault, ch: Channel, r: Remote, p: nat, bulk: Option<string>, l: Ledger)
    : (Heard, Ledger)
    requires p < |r.ports|
  {
    if bulk.Some? then (Value(BitAt(bulk.value, p)), l)
    else
      var reply := Answer(fault(l.at), PortText(r, p));
      (Hear(ch.kind, reply), l.Charge(reply))
  }

  datatype PortRun = PortRun(v: int, d: int, ledger: Ledger)

  /** One port, with `v` in the cache and `d` in the module: the body of the innermost loop. */
  function RunPort(fault: nat -> Fault, force: bool, ch: Channel, r: Remote, p: nat, bulk: Option<string>,
                   l: Ledger): PortRun
    requires Shaped(ch, r) && p < |ch.values|
  {
    var v, d, mode := ch.values[p], r.ports[p], ch.modes[p];
    if !force && mode == 'N' then PortRun(v, d, l)
    else
      var (h, l1) := ReadPort(fault, ch, r, p, bulk, l);
      if !h.Value? then PortRun(v, d, l1)
      else if mode == 'R' || force then PortRun(h.value, d, l1)
      else if h.value == v then PortRun(v, d, l1)
      else PortRun(v, if Applied(fault(l1.at)) then Told(ch, v) else d, l1.Charge(Answer(fault(l1.at), [])))
  }

  /** A channel, its module and the ledger in the course of a pass. */
  datatype ChannelRun = ChannelRun(ch: Channel, r: Remote, ledger: Ledger)

  function StepPort(fault: nat -> Fault, force: bool, bulk: Option<string>, s: ChannelRun, p: nat): (s': ChannelRun)
    requires Shaped(s.ch, s.r) && p < |s.ch.values|
    ensures Shaped(s'.ch, s'.r) && |s'.ch.values| == |s.ch.values|
  {
    var q := RunPort(fault, force, s.ch, s.r, p, bulk, s.ledger);
    ChannelRun(WithValue(s.ch, p, q.v), WithPort(s.r, p, q.d), q.ledger)
  }

  /** The ports from `p` on. */
  function RunPorts(fault: nat -> Fault, force: bool, bulk: Option<string>, s: ChannelRun, p: nat): (s': ChannelRun)
    requires Shaped(s.ch, s.r) && p <= |s.ch.values|
    ensures Shaped(s'.ch, s'.r) && |s'.ch.values| == |s.ch.values|
    decreases |s.ch.values| - p
  {
    if p == |s.ch.values| then s else RunPorts(fault, force, bulk, StepPort(fault, force, bulk, s, p), p + 1)
  }

  /** The reply to the bulk read of a binary channel, unless it failed; that error is not counted. */
  function BulkReply(fault: nat -> Fault, s: ChannelRun): Option<string> {
    var reply := Answer(fault(s.ledger.at), BulkText(s.r));
    if s.ch.kind == 'B' && Good(reply) then Some(reply.text) else None
  }

  predicate AllIgnored(ch: Channel) {
    forall p :: 0 <= p < |ch.modes| ==> ch.modes[p] == 'N'
  }

  /** Is the channel passed over as a whole? */
  predicate Skipped(force: bool, ch: Channel) {
    ch.kind == 'T' || (!force && AllIgnored(ch))
  }

  function AfterBulk(s: ChannelRun): ChannelRun {
    if s.ch.kind == 'B' then s.(ledger := s.ledger.(at := s.ledger.at + 1)) else s
  }

  /** One channel: a bulk read of a binary channel, and reads port by port if that fails. */
  function RunChannel(fault: nat -> Fault, force: bool, s: ChannelRun): (s': ChannelRun)
    requires Shaped(s.ch, s.r)
    ensures Shaped(s'.ch, s'.r) && |s'.ch.values| == |s.ch.values|
  {
    if Skipped(force, s.ch) then s else RunPorts(fault, force, BulkReply(fault, s), AfterBulk(s), 0)
  }

  /** `s` with `x` at place `c` of place `m`. */
  function Put<T>(s: seq<seq<T>>, m: nat, c: nat, x: T): (r: seq<seq<T>>)
    requires m < |s| && c < |s[m]|
    ensures |r| == |s| && |r[m]| == |s[m]| && r[m][c] == x
  {
    s[m := s[m][c := x]]
  }

  datatype PassRun = PassRun(chs: seq<seq<Channel>>, rs: seq<seq<Remote>>, ledger: Ledger) {
    predicate Valid() {
      && |chs| == |rs|
      && (forall m :: 0 <= m < |chs| ==> |chs[m]| == |rs[m]|)
      && forall m, c :: 0 <= m < |chs| && 0 <= c < |chs[m]| ==> Shaped(chs[m][c], rs[m][c])
    }

    function Place(m: nat, c: nat): ChannelRun
      requires Valid() && m < |chs| && c < |chs[m]|
    {
      ChannelRun(chs[m][c], rs[m][c], ledger)
    }

    function With(m: nat, c: nat, x: ChannelRun): (s': PassRun)
      requires Valid() && m < |chs| && c < |chs[m]| && Shaped(x.ch, x.r)
      ensures s'.Valid() && |s'.chs| == |chs| && forall i :: 0 <= i < |chs| ==> |s'.chs[i]| == |chs[i]|
    {
      PassRun(Put(chs, m, c, x.ch), Put(rs, m, c, x.r), x.ledger)
    }
  }

  /** The channels from place `c` of module `m` on. */
  function RunPass(fault: nat -> Fault, force: bool, s: PassRun, m: nat, c: nat): (s': PassRun)
    requires s.Valid() && m <= |s.chs| && (m < |s.chs| ==> c <= |s.chs[m]|)
    ensures s'.Valid() && |s'.chs| == |s.chs| && forall i :: 0 <= i < |s.chs| ==> |s'.chs[i]| == |s.chs[i]|
    decreases |s.chs| - m, if m < |s.chs| then |s.chs[m]| - c else 0
  {
    if m == |s.chs| then s
    else if c == |s.chs[m]| then RunPass(fault, force, s, m + 1, 0)
    else RunPass(fault, force, s.With(m, c, RunChannel(fault, force, s.Place(m, c))), m, c + 1)
  }

  /** A value and a port changed, or either of them, leave the shapes as they are. */
  lemma StaysValid(s: PassRun, m: nat, c: nat, p: nat, v: int, d: int)
    requires s.Valid() && m < |s.chs| && c < |s.chs[m]| && p < |s.chs[m][c].values|
    ensures var chs, rs := Put(s.chs, m, c, WithValue(s.chs[m][c], p, v)), Put(s.rs, m, c, WithPort(s.rs[m][c], p, d));
            forall l: Ledger :: PassRun(s.chs, s.rs, l).Valid() && PassRun(s.chs, rs, l).Valid()
                && PassRun(chs, rs, l).Valid() && PassRun(chs, s.rs, l).Valid()
  {}

  lemma OnePlace(fault: nat -> Fault, force: bool, s: PassRun, m: nat, c: nat)
    requires s.Valid() && m < |s.chs| && c < |s.chs[m]|
    ensures RunPass(fault, force, s, m, c) == RunPass(fault, force,
            s.With(m, c, RunChannel(fault, force, s.Place(m, c))), m, c + 1)
  {
    hide RunChannel;
  }

  lemma NextModule(fault: nat -> Fault, force: bool, s: PassRun, m: nat)
    requires s.Valid() && m < |s.chs|
    ensures RunPass(fault, force, s, m, |s.chs[m]|) == RunPass(fault, force, s, m + 1, 0)
  {}

  lemma NoMoreModules(fault: nat -> Fault, force: bool, s: PassRun, c: nat)
    requires s.Valid()
    ensures RunPass(fault, force, s, |s.chs|, c) == s
  {}

  // ----- What a pass does to one port ---------------------------------------------------------------------

  /** The ledger when the turn comes of port `p`, in the course of the ports from `k` on. */
  function PortTurn(fault: nat -> Fault, force: bool, bulk: Option<string>, s: ChannelRun, k: nat, p: nat): Ledger
    requires Shaped(s.ch, s.r) && k <= p < |s.ch.values|
    decreases p - k
  {
    if k == p then s.ledger else PortTurn(fault, force, bulk, StepPort(fault, force, bulk, s, k), k + 1, p)
  }

  /** The ledger when the turn comes of place `c` of module `m`, in the course of a pass from place `c1` of `m1` on. */
  function ChannelTurn(fault: nat -> Fault, force: bool, s: PassRun, m1: nat, c1: nat, m: nat, c: nat): Ledger
    requires s.Valid() && m1 <= |s.chs| && (m1 < |s.chs| ==> c1 <= |s.chs[m1]|)
    requires m < |s.chs| && c < |s.chs[m]| && !Before(m, c, m1, c1)
    decreases |s.chs| - m1, if m1 < |s.chs| then |s.chs[m1]| - c1 else 0
  {
    if m == m1 && c == c1 then s.ledger
    else if c1 == |s.chs[m1]| then ChannelTurn(fault, force, s, m1 + 1, 0, m, c)
    else ChannelTurn(fault, force, s.With(m1, c1, RunChannel(fault, force, s.Place(m1, c1))), m1, c1 + 1, m, c)
  }

  /** Is place `c` of module `m` before place `c1` of module `m1`? */
  predicate Before(m: nat, c: nat, m1: nat, c1: nat) {
    m < m1 || (m == m1 && c < c1)
  }

  /** What a read of the port says when its turn comes; `l` is the ledger then. */
  function Said(fault: nat -> Fault, ch: Channel, r: Remote, p: nat, bulk: Option<string>, l: Ledger): Heard
    requires p < |r.ports|
  {
    ReadPort(fault, ch, r, p, bulk, l).0
  }

  lemma ToldIffInRange(ch: Channel, v: int)
    ensures Told(ch, v) == v <==> InRange(ch, v)
  {}

  lemma PortCounts(fault: nat -> Fault, force: bool, ch: Channel, r: Remote, p: nat, bulk: Option<string>, l: Ledger)
    requires Shaped(ch, r) && p < |ch.values|
    ensures l.Errors() <= RunPort(fault, force, ch, r, p, bulk, l).ledger.Errors()
  {
    hide ScanInt, Decimal;
  }

  lemma {:induction false} PortsCount(fault: nat -> Fault, force: bool, bulk: Option<string>, s: ChannelRun, k: nat)
    requires Shaped(s.ch, s.r) && k <= |s.ch.values|
    ensures s.ledger.Errors() <= RunPorts(fault, force, bulk, s, k).ledger.Errors()
    decreases |s.ch.values| - k
  {
    hide RunPort;
    if k < |s.ch.values| {
      PortCounts(fault, force, s.ch, s.r, k, bulk, s.ledger);
      PortsCount(fault, force, bulk, StepPort(fault, force, bulk, s, k), k + 1);
    }
  }

  /** Nothing but the values changes, and of those none before place `k`. */
  predicate OnlyFrom(s: ChannelRun, s': ChannelRun, k: nat) {
    && s'.ch == s.ch.(values := s'.ch.values) && s'.r == s.r.(ports := s'.r.ports)
    && k <= |s'.ch.values| == |s.ch.values| && |s'.r.ports| == |s.r.ports| >= k
    && s'.ch.values[..k] == s.ch.values[..k] && s'.r.ports[..k] == s.r.ports[..k]
  }

  lemma {:induction false} PortsFrom(fault: nat -> Fault, force: bool, bulk: Option<string>, s: ChannelRun, k: nat)
    requires Shaped(s.ch, s.r) && k <= |s.ch.values|
    ensures OnlyFrom(s, RunPorts(fault, force, bulk, s, k), k)
    decreases |s.ch.values| - k
  {
    hide RunPort;
    if k < |s.ch.values| {
      var s1 := StepPort(fault, force, bulk, s, k);
      PortsFrom(fault, force, bulk, s1, k + 1);
      var s2 := RunPorts(fault, force, bulk, s1, k + 1);
      assert s2.ch.values[..k] == s2.ch.values[..k + 1][..k] && s2.r.ports[..k] == s2.r.ports[..k + 1][..k];
      assert s1.ch.values[..k] == s1.ch.values[..k + 1][..k] && s1.r.ports[..k] == s1.r.ports[..k + 1][..k];
    }
  }

  /** The body of the loop looks at nothing of a channel but the port itself. */
  lemma PortAlone(fault: nat -> Fault, force: bool, s: ChannelRun, s': ChannelRun, p: nat, bulk: Option<string>,
                  l: Ledger)
    requires Shaped(s.ch, s.r) && OnlyFrom(s, s', 0) && p < |s.ch.values|
    requires s'.ch.values[p] == s.ch.values[p] && s'.r.ports[p] == s.r.ports[p]
    ensures RunPort(fault, force, s'.ch, s'.r, p, bulk, l) == RunPort(fault, force, s.ch, s.r, p, bulk, l)
    ensures Said(fault, s'.ch, s'.r, p, bulk, l) == Said(fault, s.ch, s.r, p, bulk, l)
  {
    hide ScanInt, Decimal, BitAt;
  }

  /** What `q` says of port `p` is what became of it. */
  predicate Became(q: PortRun, s': ChannelRun, p: nat) {
    p < |s'.ch.values| && p < |s'.r.ports| && s'.ch.values[p] == q.v && s'.r.ports[p] == q.d
  }

  /** Every port has its turn: with the ledger of that time the body of the loop does to it what the pass does. */
  lemma {:induction false} PortInPorts(fault: nat -> Fault, force: bool, bulk: Option<string>, s: ChannelRun, k: nat,
                                       p: nat)
    requires Shaped(s.ch, s.r) && k <= p < |s.ch.values|
    ensures var l := PortTurn(fault, force, bulk, s, k, p);
            var q, s' := RunPort(fault, force, s.ch, s.r, p, bulk, l), RunPorts(fault, force, bulk, s, k);
            Became(q, s', p) && s.ledger.Errors() <= l.Errors() && q.ledger.Errors() <= s'.ledger.Errors()
    decreases p - k
  {
    hide RunPort;
    var s1 := StepPort(fault, force, bulk, s, k);
    PortCounts(fault, force, s.ch, s.r, k, bulk, s.ledger);
    if p == k {
      PortsFrom(fault, force, bulk, s1, k + 1);
      PortsCount(fault, force, bulk, s1, k + 1);
      var s2 := RunPorts(fault, force, bulk, s1, k + 1);
      assert s2.ch.values[k] == s2.ch.values[..k + 1][k] && s2.r.ports[k] == s2.r.ports[..k + 1][k];
    } else {
      PortInPorts(fault, force, bulk, s1, k + 1, p);
      PortAlone(fault, force, s, s1, p, bulk, PortTurn(fault, force, bulk, s1, k + 1, p));
    }
  }

  /** The ledger when the turn comes of port `p` of a channel, behind its bulk read if there is one. */
  function TurnInChannel(fault: nat -> Fault, force: bool, s: ChannelRun, p: nat): Ledger
    requires Shaped(s.ch, s.r) && p < |s.ch.values|
  {
    PortTurn(fault, force, BulkReply(fault, s), AfterBulk(s), 0, p)
  }

  /** The same for a channel. */
  lemma PortInChannel(fault: nat -> Fault, force: bool, s: ChannelRun, p: nat)
    requires Shaped(s.ch, s.r) && !Skipped(force, s.ch) && p < |s.ch.values|
    ensures var l := TurnInChannel(fault, force, s, p);
            var q, s' := RunPort(fault, force, s.ch, s.r, p, BulkReply(fault, s), l), RunChannel(fault, force, s);
            Became(q, s', p) && s.ledger.Errors() <= l.Errors() && q.ledger.Errors() <= s'.ledger.Errors()
  {
    hide RunPort, RunPorts, PortTurn, Became, BulkReply;
    PortInPorts(fault, force, BulkReply(fault, s), AfterBulk(s), 0, p);
  }

  lemma ChannelCounts(fault: nat -> Fault, force: bool, s: ChannelRun)
    requires Shaped(s.ch, s.r)
    ensures s.ledger.Errors() <= RunChannel(fault, force, s).ledger.Errors()
  {
    hide RunPorts;
    PortsCount(fault, force, BulkReply(fault, s), AfterBulk(s), 0);
  }

  lemma {:induction false} PassCounts(fault: nat -> Fault, force: bool, s: PassRun, m: nat, c: nat)
    requires s.Valid() && m <= |s.chs| && (m < |s.chs| ==> c <= |s.chs[m]|)
    ensures s.ledger.Errors() <= RunPass(fault, force, s, m, c).ledger.Errors()
    decreases |s.chs| - m, if m < |s.chs| then |s.chs[m]| - c else 0
  {
    hide RunChannel, RunPass;
    if m == |s.chs| {
      NoMoreModules(fault, force, s, c);
    } else {
      if c == |s.chs[m]| {
        NextModule(fault, force, s, m);
        PassCounts(fault, force, s, m + 1, 0);
      } else {
        OnePlace(fault, force, s, m, c);
        ChannelCounts(fault, force, s.Place(m, c));
        PassCounts(fault, force, s.With(m, c, RunChannel(fault, force, s.Place(m, c))), m, c + 1);
      }
    }
  }

  lemma {:induction false} PassSpares(fault: nat -> Fault, force: bool, s: PassRun, m1: nat, c1: nat, m: nat, c: nat)
    requires s.Valid() && m1 <= |s.chs| && (m1 < |s.chs| ==> c1 <= |s.chs[m1]|)
    requires m < |s.chs| && c < |s.chs[m]| && Before(m, c, m1, c1)
    ensures var s' := RunPass(fault, force, s, m1, c1); s'.chs[m][c] == s.chs[m][c] && s'.rs[m][c] == s.rs[m][c]
    decreases |s.chs| - m1, if m1 < |s.chs| then |s.chs[m1]| - c1 else 0
  {
    hide RunChannel, RunPass;
    if m1 == |s.chs| {
      NoMoreModules(fault, force, s, c1);
    } else {
      if c1 == |s.chs[m1]| {
        NextModule(fault, force, s, m1);
        PassSpares(fault, force, s, m1 + 1, 0, m, c);
      } else {
        OnePlace(fault, force, s, m1, c1);
        var s1 := s.With(m1, c1, RunChannel(fault, force, s.Place(m1, c1)));
        PassSpares(fault, force, s1, m1, c1 + 1, m, c);
      }
    }
  }

  /** Every channel has its turn: with the ledger of that time the pass does to it what RunChannel does. */
  lemma {:induction false} ChannelInPass(fault: nat -> Fault, force: bool, s: PassRun, m1: nat, c1: nat, m: nat, c: nat)
    requires s.Valid() && m1 <= |s.chs| && (m1 < |s.chs| ==> c1 <= |s.chs[m1]|)
    requires m < |s.chs| && c < |s.chs[m]| && !Before(m, c, m1, c1)
    ensures var l := ChannelTurn(fault, force, s, m1, c1, m, c);
            var x, s' := RunChannel(fault, force, s.Place(m, c).(ledger := l)), RunPass(fault, force, s, m1, c1);
            && s'.chs[m][c] == x.ch && s'.rs[m][c] == x.r
            && s.ledger.Errors() <= l.Errors() && x.ledger.Errors() <= s'.ledger.Errors()
    decreases |s.chs| - m1, if m1 < |s.chs| then |s.chs[m1]| - c1 else 0
  {
    hide RunChannel, RunPass;
    if c1 == |s.chs[m1]| {
      NextModule(fault, force, s, m1);
      ChannelInPass(fault, force, s, m1 + 1, 0, m, c);
    } else {
      OnePlace(fault, force, s, m1, c1);
      var x := RunChannel(fault, force, s.Place(m1, c1));
      var s1 := s.With(m1, c1, x);
      ChannelCounts(fault, force, s.Place(m1, c1));
      if m == m1 && c == c1 {
        PassSpares(fault, force, s1, m1, c1 + 1, m, c);
        PassCounts(fault, force, s1, m1, c1 + 1);
      } else {
        ChannelInPass(fault, force, s1, m1, c1 + 1, m, c);
        assert s1.chs[m][c] == s.chs[m][c] && s1.rs[m][c] == s.rs[m][c];
      }
    }
  }

  // ----- When cache and module agree ----------------------------------------------------------------------

  /**
   What becomes of a port. `h` is what the read of it said, and `applied` whether the write that came next, if any, was
   carried out. A port to be ignored is left alone. One to be read takes over what was said, if that was a value. One to
   be written is written if another value was said, and is told the value of the cache, cut to its range; so it agrees
   exactly if it was written and its value is in range, or was not and agreed before.
   */
  predicate Outcome(ch: Channel, force: bool, mode: char, v: int, v': int, d: int, d': int, h: Heard, applied: bool) {
    if mode == 'N' && !force then v' == v && d' == d
    else if mode == 'R' || force then
      d' == d && (if h.Value? then v' == h.value else v' == v) && (v' == d' <==> h == Value(d) || (!h.Value? && v == d))
    else
      var written := h.Value? && h.value != v && applied;
      && v' == v && (if written then IsCut(ch, v, d') else d' == d)
      && (d' == v' <==> if written then InRange(ch, v) else d == v)
  }

  /** Is a write, were it made now, carried out? */
  predicate WriteApplied(fault: nat -> Fault, ch: Channel, r: Remote, p: nat, bulk: Option<string>, l: Ledger)
    requires p < |r.ports|
  {
    Applied(fault(ReadPort(fault, ch, r, p, bulk, l).1.at))
  }

  lemma PortOutcome(fault: nat -> Fault, force: bool, ch: Channel, r: Remote, p: nat, bulk: Option<string>, l: Ledger)
    requires Shaped(ch, r) && p < |ch.values|
    ensures var q, h := RunPort(fault, force, ch, r, p, bulk, l), Said(fault, ch, r, p, bulk, l);
            && Outcome(ch, force, ch.modes[p], ch.values[p], q.v, r.ports[p], q.d, h,
                       WriteApplied(fault, ch, r, p, bulk, l))
            && (q.ledger.Errors() == l.Errors() && (ch.modes[p] != 'N' || force) ==> !h.Failed?)
  {
    hide ScanInt, Decimal, BitAt, Told;
    ToldIffInRange(ch, ch.values[p]);
  }

  /** A channel and its module when their turn comes in a pass. */
  function InTurn(fault: nat -> Fault, force: bool, s: PassRun, m: nat, c: nat): (x: ChannelRun)
    requires s.Valid() && m < |s.chs| && c < |s.chs[m]|
    ensures x.ch == s.chs[m][c] && x.r == s.rs[m][c] && Shaped(x.ch, x.r)
  {
    s.Place(m, c).(ledger := ChannelTurn(fault, force, s, 0, 0, m, c))
  }

  /**
   What becomes of every port in a pass, by what the module answered to the commands sent when its turn came: the bulk
   read of its channel, if that did not fail, or the read of the port, and the write behind it. If the pass counted no
   error, the read of the port did not fail.
   */
  lemma AgreementIff(fault: nat -> Fault, force: bool, s: PassRun, m: nat, c: nat, p: nat)
    requires s.Valid() && m < |s.chs| && c < |s.chs[m]| && p < |s.chs[m][c].values|
    ensures var s', x := RunPass(fault, force, s, 0, 0), InTurn(fault, force, s, m, c);
            var ch, r, bulk, l := x.ch, x.r, BulkReply(fault, x), TurnInChannel(fault, force, x, p);
            if Skipped(force, ch) then s'.chs[m][c] == ch && s'.rs[m][c] == r
            else
              && p < |s'.chs[m][c].values| && p < |s'.rs[m][c].ports|
              && Outcome(ch, force, ch.modes[p], ch.values[p], s'.chs[m][c].values[p], r.ports[p],
                         s'.rs[m][c].ports[p], Said(fault, ch, r, p, bulk, l), WriteApplied(fault, ch, r, p, bulk, l))
              && (s'.ledger.Errors() == s.ledger.Errors() && (ch.modes[p] != 'N' || force)
                  ==> !Said(fault, ch, r, p, bulk, l).Failed?)
  {
    hide RunPort, RunPass, Said, BulkReply, ChannelTurn, TurnInChannel, Outcome;
    ChannelInPass(fault, force, s, 0, 0, m, c);
    var x := InTurn(fault, force, s, m, c);
    ChannelCounts(fault, force, x);
    if !Skipped(force, x.ch) {
      var l := TurnInChannel(fault, force, x, p);
      PortInChannel(fault, force, x, p);
      hide RunChannel;
      PortCounts(fault, force, x.ch, x.r, p, BulkReply(fault, x), l);
      PortOutcome(fault, force, x.ch, x.r, p, BulkReply(fault, x), l);
    }
  }

  // ----- What is counted ----------------------------------------------------------------------------------

  /** The commands from number `i` up to number `n` to which no reply came. */
  function Losses(fault: nat -> Fault, i: nat, n: nat): nat
    decreases n - i
  {
    if i >= n then 0 else (if fault(i).Lost? then 1 else 0) + Losses(fault, i + 1, n)
  }

  /** Those whose reply began with NAK. */
  function Refusals(fault: nat -> Fault, i: nat, n: nat): nat
    decreases n - i
  {
    if i >= n then 0 else (if Declined(fault(i)) then 1 else 0) + Refusals(fault, i + 1, n)
  }

  predicate Declined(f: Fault) {
    f == Refused || (f.Garbled? && f.text != [] && f.text[0] == '\U{15}')
  }

  lemma {:induction false} CountsJoin(fault: nat -> Fault, i: nat, k: nat, n: nat)
    requires i <= k <= n
    ensures Losses(fault, i, n) == Losses(fault, i, k) + Losses(fault, k, n)
    ensures Refusals(fault, i, n) == Refusals(fault, i, k) + Refusals(fault, k, n)
    decreases k - i
  {
    if i < k { CountsJoin(fault, i + 1, k, n); }
  }

  /** `l'` is the ledger behind `l`, with the errors of the commands in between and no others. */
  predicate Counts(fault: nat -> Fault, l: Ledger, l': Ledger) {
    l.at <= l'.at && l'.comm == l.comm + Losses(fault, l.at, l'.at) && l'.op == l.op + Refusals(fault, l.at, l'.at)
  }

  lemma OneCounts(fault: nat -> Fault, l: Ledger, text: string)
    requires !IsNak(text)
    ensures Counts(fault, l, l.Charge(Answer(fault(l.at), text)))
  {
    assert Losses(fault, l.at + 1, l.at + 1) == 0 && Refusals(fault, l.at + 1, l.at + 1) == 0;
  }

  lemma BothCount(fault: nat -> Fault, l: Ledger, l1: Ledger, l2: Ledger)
    requires Counts(fault, l, l1) && Counts(fault, l1, l2)
    ensures Counts(fault, l, l2)
  {
    CountsJoin(fault, l.at, l1.at, l2.at);
  }

  /**
   A port takes a read, unless it is ignored or its channel was read in bulk, and a write if it said another value.
   */
  lemma PortCommands(fault: nat -> Fault, force: bool, ch: Channel, r: Remote, p: nat, bulk: Option<string>, l: Ledger)
    requires Shaped(ch, r) && p < |ch.values|
    ensures var q, h, mode := RunPort(fault, force, ch, r, p, bulk, l), Said(fault, ch, r, p, bulk, l), ch.modes[p];
            var read := (force || mode != 'N') && bulk == None;
            var write := !force && mode != 'N' && mode != 'R' && h.Value? && h.value != ch.values[p];
            && Counts(fault, l, q.ledger)
            && q.ledger.at == l.at + (if read then 1 else 0) + (if write then 1 else 0)
  {
    hide ScanInt, Decimal, BitAt, Told, Hear, Counts;
    assert Counts(fault, l, l) by { NoneCounts(fault, l); }
    TextIsNoRefusal(r, p);
    OneCounts(fault, l, PortText(r, p));
    var l1 := ReadPort(fault, ch, r, p, bulk, l).1;
    OneCounts(fault, l1, []);
    BothCount(fault, l, l1, l1.Charge(Answer(fault(l1.at), [])));
  }

  lemma NoneCounts(fault: nat -> Fault, l: Ledger)
    ensures Counts(fault, l, l)
  {}

  lemma {:induction false} PortsCommands(fault: nat -> Fault, force: bool, bulk: Option<string>, s: ChannelRun, k: nat)
    requires Shaped(s.ch, s.r) && k <= |s.ch.values|
    ensures Counts(fault, s.ledger, RunPorts(fault, force, bulk, s, k).ledger)
    decreases |s.ch.values| - k
  {
    hide RunPort, Counts;
    if k < |s.ch.values| {
      var s1 := StepPort(fault, force, bulk, s, k);
      PortCommands(fault, force, s.ch, s.r, k, bulk, s.ledger);
      PortsCommands(fault, force, bulk, s1, k + 1);
      BothCount(fault, s.ledger, s1.ledger, RunPorts(fault, force, bulk, s1, k + 1).ledger);
    } else {
      NoneCounts(fault, s.ledger);
    }
  }

  /** The errors counted for a channel are those of all its commands but the bulk read. */
  lemma ChannelErrors(fault: nat -> Fault, force: bool, s: ChannelRun)
    requires Shaped(s.ch, s.r)
    ensures var l, s' := s.ledger, RunChannel(fault, force, s);
            if Skipped(force, s.ch) then s' == s
            else Counts(fault, if s.ch.kind == 'B' then Ledger(l.at + 1, l.comm, l.op) else l, s'.ledger)
  {
    hide RunPorts, BulkReply, Counts;
    PortsCommands(fault, force, BulkReply(fault, s), AfterBulk(s), 0);
  }

  /** A pass in which every command is answered as it should be counts no error. */
  lemma {:induction false} FinePass(fault: nat -> Fault, force: bool, s: PassRun, m: nat, c: nat)
    requires (forall k: nat :: fault(k) == Fine) && s.Valid() && m <= |s.chs| && (m < |s.chs| ==> c <= |s.chs[m]|)
    ensures RunPass(fault, force, s, m, c).ledger.Errors() == s.ledger.Errors()
    decreases |s.chs| - m, if m < |s.chs| then |s.chs[m]| - c else 0
  {
    hide RunChannel, RunPass;
    if m == |s.chs| {
      NoMoreModules(fault, force, s, c);
    } else if c == |s.chs[m]| {
      NextModule(fault, force, s, m);
      FinePass(fault, force, s, m + 1, 0);
    } else {
      OnePlace(fault, force, s, m, c);
      OnlyBulkFails(fault, force, s.Place(m, c));
      FinePass(fault, force, s.With(m, c, RunChannel(fault, force, s.Place(m, c))), m, c + 1);
    }
  }

  /** The bulk read of a channel may fail in any way: that is no error, as long as all other commands are answered. */
  lemma OnlyBulkFails(fault: nat -> Fault, force: bool, s: ChannelRun)
    requires Shaped(s.ch, s.r)
    requires forall k: nat :: fault(k) == Fine || (k == s.ledger.at && s.ch.kind == 'B')
    ensures RunChannel(fault, force, s).ledger.Errors() == s.ledger.Errors()
  {
    hide RunPorts;
    FinePorts(fault, force, BulkReply(fault, s), AfterBulk(s), 0);
  }

  lemma {:induction false} FinePorts(fault: nat -> Fault, force: bool, bulk: Option<string>, s: ChannelRun, k: nat)
    requires Shaped(s.ch, s.r) && k <= |s.ch.values| && forall i: nat :: i >= s.ledger.at ==> fault(i) == Fine
    ensures RunPorts(fault, force, bulk, s, k).ledger.Errors() == s.ledger.Errors()
    decreases |s.ch.values| - k
  {
    hide RunPort;
    if k < |s.ch.values| {
      FinePort(fault, force, s.ch, s.r, k, bulk, s.ledger);
      FinePorts(fault, force, bulk, StepPort(fault, force, bulk, s, k), k + 1);
    }
  }

  lemma FinePort(fault: nat -> Fault, force: bool, ch: Channel, r: Remote, p: nat, bulk: Option<string>, l: Ledger)
    requires Shaped(ch, r) && p < |ch.values| && forall i: nat :: i >= l.at ==> fault(i) == Fine
    ensures var q := RunPort(fault, force, ch, r, p, bulk, l);
            q.ledger.at >= l.at && q.ledger.Errors() == l.Errors()
  {
    hide ScanInt, Decimal, BitAt, Bit, Told;
    TextIsNoRefusal(r, p);
  }

  lemma TextIsNoRefusal(r: Remote, p: nat)
    requires p < |r.ports|
    ensures !IsNak(PortText(r, p))
  {
    hide ScanInt, Decimal;
    NumberIsHeard(r.ports[p]);
  }

  const HEARSAY: nat -> Fault := (_: nat) => Garbled("?", false)

  /**
   A reply that cannot be read is passed over without a word: the pass counts no error, and leaves a port to be read
   with 1 in the cache and 2 in the module.
   */
  lemma UnclearReplyIsNoError(l: Ledger)
    ensures var s := ChannelRun(Channel('I', 0, 9, [1], ['R']), Remote(false, [2]), l);
            var s' := RunChannel(HEARSAY, false, s);
            s'.ledger.Errors() == l.Errors() && s'.ch.values == [1] && s'.r.ports == [2]
  {
    var s := ChannelRun(Channel('I', 0, 9, [1], ['R']), Remote(false, [2]), l);
    assert s.ch.modes[0] != 'N';
    assert ScanInt("?") == None;
    var s1 := StepPort(HEARSAY, false, None, s, 0);
    assert s1.ch == s.ch && s1.r == s.r && s1.ledger.Errors() == l.Errors();
    assert RunPorts(HEARSAY, false, None, s, 0) == RunPorts(HEARSAY, false, None, s1, 1) == s1;
  }

  // ----- Modules that answer what they are asked ----------------------------------------------------------

  /** How a pass treats a port when nothing fails. */
  predicate Reconciled(ch: Channel, force: bool, mode: char, v: int, v': int, d: int, d': int) {
    if mode == 'N' && !force then v' == v && d' == d
    else if mode == 'R' || force then d' == d && v' == d
    else v' == v && d' == if d == v then d else Told(ch, v)
  }

  lemma BitIsHeard(d: int)
    requires d == 0 || d == 1
    ensures Bit(d) != NAK && BitAt([Bit(d)], 0) == d
  {}

  /** No value looks like a refusal. */
  lemma NumberIsHeard(d: int)
    ensures !IsNak(Decimal(d)) && Hear('I', Content(Decimal(d))) == Value(d)
  {
    DecimalScans(d);
    if d < 0 { NaturalScans(-d); } else { NaturalScans(d); }
  }

  /** The reply to a bulk read, if it is used, tells the truth about every port. */
  lemma BulkIsHeard(fault: nat -> Fault, s: ChannelRun, p: nat)
    requires Honest(fault) && Matching(s.ch, s.r) && p < |s.r.ports| && BulkReply(fault, s).Some?
    ensures BitAt(BulkReply(fault, s).value, p) == s.r.ports[p]
  {
    assert !fault(s.ledger.at).Garbled?;
    BitIsHeard(s.r.ports[p]);
  }

  /** An honest read tells the module's value, or fails. */
  lemma HonestSays(fault: nat -> Fault, s: ChannelRun, p: nat, l: Ledger)
    requires Honest(fault) && Matching(s.ch, s.r) && s.ch.kind != 'T' && p < |s.r.ports|
    ensures var h := Said(fault, s.ch, s.r, p, BulkReply(fault, s), l); h == Value(s.r.ports[p]) || h == Failed
  {
    hide ScanInt, Decimal, BulkReply, BitAt, Bit;
    if BulkReply(fault, s).Some? {
      BulkIsHeard(fault, s, p);
    } else {
      assert !fault(l.at).Garbled?;
      if s.r.binary { BitIsHeard(s.r.ports[p]); } else { NumberIsHeard(s.r.ports[p]); }
    }
  }

  /** One port, honestly answered: reconciled, unless an error is counted, and the same as before if it agreed. */
  lemma HonestPort(fault: nat -> Fault, force: bool, s: ChannelRun, p: nat, l: Ledger)
    requires Honest(fault) && Matching(s.ch, s.r) && s.ch.kind != 'T' && p < |s.ch.values|
    ensures var q := RunPort(fault, force, s.ch, s.r, p, BulkReply(fault, s), l);
            && (q.ledger.Errors() == l.Errors() ==>
                  Reconciled(s.ch, force, s.ch.modes[p], s.ch.values[p], q.v, s.r.ports[p], q.d))
            && (!force && (s.ch.modes[p] == 'N' || s.ch.values[p] == s.r.ports[p])
                ==> q.v == s.ch.values[p] && q.d == s.r.ports[p])
  {
    hide ScanInt, Decimal, BulkReply, BitAt, Bit, Told;
    HonestSays(fault, s, p, l);
    assert !fault(ReadPort(fault, s.ch, s.r, p, BulkReply(fault, s), l).1.at).Garbled?;
  }

  /** A channel after a pass of honest modules that counted no error. */
  predicate AllReconciled(force: bool, s: ChannelRun, s': ChannelRun) {
    && OnlyFrom(s, s', 0) && Shaped(s.ch, s.r)
    && forall p :: 0 <= p < |s.ch.values| ==>
         Reconciled(s.ch, force, s.ch.modes[p], s.ch.values[p], s'.ch.values[p], s.r.ports[p], s'.r.ports[p])
  }

  lemma SkippedIsReconciled(force: bool, s: ChannelRun)
    requires Shaped(s.ch, s.r) && s.ch.kind != 'T' && Skipped(force, s.ch)
    ensures AllReconciled(force, s, s)
  {}

  lemma RunFrame(fault: nat -> Fault, force: bool, s: ChannelRun)
    requires Shaped(s.ch, s.r)
    ensures OnlyFrom(s, RunChannel(fault, force, s), 0)
  {
    hide RunPorts;
    PortsFrom(fault, force, BulkReply(fault, s), AfterBulk(s), 0);
  }

  lemma HonestChannel(fault: nat -> Fault, force: bool, s: ChannelRun)
    requires Honest(fault) && Matching(s.ch, s.r) && s.ch.kind != 'T'
    requires RunChannel(fault, force, s).ledger.Errors() == s.ledger.Errors()
    ensures AllReconciled(force, s, RunChannel(fault, force, s))
  {
    hide RunPort, Reconciled, BulkReply, Skipped, TurnInChannel;
    var s' := RunChannel(fault, force, s);
    if Skipped(force, s.ch) {
      SkippedIsReconciled(force, s);
    } else {
      RunFrame(fault, force, s);
      forall p | 0 <= p < |s.ch.values|
        ensures Reconciled(s.ch, force, s.ch.modes[p], s.ch.values[p], s'.ch.values[p], s.r.ports[p], s'.r.ports[p])
      {
        var l := TurnInChannel(fault, force, s, p);
        PortInChannel(fault, force, s, p);
        PortCounts(fault, force, s.ch, s.r, p, BulkReply(fault, s), l);
        HonestPort(fault, force, s, p, l);
      }
    }
  }

  lemma HonestPass(fault: nat -> Fault, force: bool, s: PassRun, m: nat, c: nat)
    requires Honest(fault) && s.Valid() && m < |s.chs| && c < |s.chs[m]| && Matching(s.chs[m][c], s.rs[m][c])
             && s.chs[m][c].kind != 'T'
    requires RunPass(fault, force, s, 0, 0).ledger.Errors() == s.ledger.Errors()
    ensures AllReconciled(force, s.Place(m, c), RunPass(fault, force, s, 0, 0).Place(m, c))
  {
    hide RunPass, RunChannel, ChannelTurn, Reconciled, Matching;
    ChannelInPass(fault, force, s, 0, 0, m, c);
    var x := InTurn(fault, force, s, m, c);
    ChannelCounts(fault, force, x);
    HonestChannel(fault, force, x);
  }

  /**
   Honest modules, a pass that is not forced and counts no error: R ports have the module's value; W ports have put
   theirs into the module, exactly if it is in range or was there before; N ports are as they were on both sides.
   */
  lemma CountedNothingMeansAgreement(fault: nat -> Fault, s: PassRun, m: nat, c: nat, p: nat)
    requires Honest(fault) && s.Valid() && m < |s.chs| && c < |s.chs[m]| && Matching(s.chs[m][c], s.rs[m][c])
    requires s.chs[m][c].kind != 'T' && p < |s.chs[m][c].values|
    requires RunPass(fault, false, s, 0, 0).ledger.Errors() == s.ledger.Errors()
    ensures var s', ch := RunPass(fault, false, s, 0, 0), s.chs[m][c];
            && p < |s'.chs[m][c].values| && p < |s'.rs[m][c].ports|
            && var v, v', d, d' := ch.values[p], s'.chs[m][c].values[p], s.rs[m][c].ports[p], s'.rs[m][c].ports[p];
               match ch.modes[p]
               case 'N' => v' == v && d' == d
               case 'R' => v' == d' == d
               case _ => v' == v && (d != v ==> IsCut(ch, v, d')) && (d' == v <==> InRange(ch, v) || d == v)
  {
    hide RunPass, Told;
    ToldIffInRange(s.chs[m][c], s.chs[m][c].values[p]);
    HonestPass(fault, false, s, m, c);
  }

  /** A forced pass of honest modules that counts no error makes the cache a copy of them, and leaves them alone. */
  lemma ForcedPassCopies(fault: nat -> Fault, s: PassRun, m: nat, c: nat)
    requires Honest(fault) && s.Valid() && m < |s.chs| && c < |s.chs[m]| && Matching(s.chs[m][c], s.rs[m][c])
             && s.chs[m][c].kind != 'T'
    requires RunPass(fault, true, s, 0, 0).ledger.Errors() == s.ledger.Errors()
    ensures var s' := RunPass(fault, true, s, 0, 0); s'.rs[m][c].ports == s.rs[m][c].ports == s'.chs[m][c].values
  {
    hide RunPass, Told;
    HonestPass(fault, true, s, m, c);
  }

  /** Once a channel agrees, a further pass of honest modules changes nothing on either side, even if it fails. */
  lemma AgreementIsStable(fault: nat -> Fault, s: ChannelRun)
    requires Honest(fault) && Matching(s.ch, s.r)
    requires forall p :: 0 <= p < |s.ch.values| ==> s.ch.modes[p] == 'N' || s.ch.values[p] == s.r.ports[p]
    ensures RunChannel(fault, false, s).ch == s.ch && RunChannel(fault, false, s).r == s.r
  {
    hide RunPort, BulkReply, TurnInChannel;
    var s' := RunChannel(fault, false, s);
    if !Skipped(false, s.ch) {
      RunFrame(fault, false, s);
      forall p | 0 <= p < |s.ch.values|
        ensures s'.ch.values[p] == s.ch.values[p] && s'.r.ports[p] == s.r.ports[p]
      {
        PortInChannel(fault, false, s, p);
        HonestPort(fault, false, s, p, TurnInChannel(fault, false, s, p));
      }
      assert s'.ch.values == s.ch.values && s'.r.ports == s.r.ports;
    }
  }

  lemma ReconciledOnce(force: bool, s: ChannelRun, a: ChannelRun, b: ChannelRun)
    requires AllReconciled(force, s, a) && AllReconciled(force, s, b)
    ensures a.ch == b.ch && a.r == b.r
  {
    assert a.ch.values == b.ch.values && a.r.ports == b.r.ports;
  }

  /**
   Two passes over the same caches and modules that count no error end with the same caches and modules, whichever
   commands failed on the way: a binary channel read in bulk, or port by port after a bulk read that failed.
   */
  lemma PassesAgree(fault: nat -> Fault, fault': nat -> Fault, force: bool, s: PassRun, l': Ledger, m: nat, c: nat)
    requires Honest(fault) && Honest(fault') && s.Valid()
    requires m < |s.chs| && c < |s.chs[m]| && Matching(s.chs[m][c], s.rs[m][c])
    requires RunPass(fault, force, s, 0, 0).ledger.Errors() == s.ledger.Errors()
    requires RunPass(fault', force, s.(ledger := l'), 0, 0).ledger.Errors() == l'.Errors()
    ensures var a, b := RunPass(fault, force, s, 0, 0), RunPass(fault', force, s.(ledger := l'), 0, 0);
            a.chs[m][c] == b.chs[m][c] && a.rs[m][c] == b.rs[m][c]
  {
    hide RunPass, ChannelTurn;
    if s.chs[m][c].kind == 'T' {
      ChannelInPass(fault, force, s, 0, 0, m, c);
      ChannelInPass(fault', force, s.(ledger := l'), 0, 0, m, c);
    } else {
      HonestPass(fault, force, s, m, c);
      HonestPass(fault', force, s.(ledger := l'), m, c);
      hide Reconciled, Matching;
      ReconciledOnce(force, s.Place(m, c), RunPass(fault, force, s, 0, 0).Place(m, c),
                     RunPass(fault', force, s.(ledger := l'), 0, 0).Place(m, c));
    }
  }

  lemma WriteText(ch: Channel, v: int)
    ensures ScanInt(if ch.kind == 'B' then (if v == 0 then "0" else "1") else Decimal(Told(ch, v))) == Some(Told(ch, v))
  {
    hide ScanInt, Decimal;
    if ch.kind == 'B' { BitText(); } else { DecimalScans(Told(ch, v)); }
  }

  lemma BitText()
    ensures ScanInt("0") == Some(0) && ScanInt("1") == Some(1)
  {
    DecimalScans(0);
    DecimalScans(1);
    assert Digit(0) == '0' && Digit(1) == '1';
    assert Natural(0) == "0" && Natural(1) == "1";
    assert Decimal(0) == "0" && Decimal(1) == "1";
  }

  lemma PutTwice<T>(s: seq<seq<T>>, m: nat, c: nat, x: T, y: T)
    requires m < |s| && c < |s[m]|
    ensures Put(Put(s, m, c, x), m, c, y) == Put(s, m, c, y)
  {
    assert s[m][c := x][c := y] == s[m][c := y];
  }

  lemma PutSame<T>(s: seq<seq<T>>, m: nat, c: nat)
    requires m < |s| && c < |s[m]|
    ensures Put(s, m, c, s[m][c]) == s
  {
    assert s[m][c := s[m][c]] == s[m];
  }

  lemma WithSame(s: PassRun, m: nat, c: nat)
    requires s.Valid() && m < |s.chs| && c < |s.chs[m]|
    ensures forall l: Ledger :: s.With(m, c, s.Place(m, c).(ledger := l)) == s.(ledger := l)
    ensures s.With(m, c, s.Place(m, c)) == s
  {
    PutSame(s.chs, m, c);
    PutSame(s.rs, m, c);
  }

  lemma WithTwice(s: PassRun, m: nat, c: nat, x: ChannelRun, y: ChannelRun)
    requires s.Valid() && m < |s.chs| && c < |s.chs[m]| && Shaped(x.ch, x.r) && Shaped(y.ch, y.r)
    ensures s.With(m, c, x).With(m, c, y) == s.With(m, c, y)
  {
    PutTwice(s.chs, m, c, x.ch, y.ch);
    PutTwice(s.rs, m, c, x.r, y.r);
  }

  lemma Same(s: PassRun, m: nat, c: nat, p: nat)
    requires s.Valid() && m < |s.chs| && c < |s.chs[m]| && p < |s.chs[m][c].values|
    ensures Put(s.chs, m, c, WithValue(s.chs[m][c], p, s.chs[m][c].values[p])) == s.chs
    ensures Put(s.rs, m, c, WithPort(s.rs[m][c], p, s.rs[m][c].ports[p])) == s.rs
  {
    var ch, r := s.chs[m][c], s.rs[m][c];
    assert WithValue(ch, p, ch.values[p]) == ch && WithPort(r, p, r.ports[p]) == r;
    PutSame(s.chs, m, c);
    PutSame(s.rs, m, c);
  }

  lemma PortKeepsKind(fault: nat -> Fault, force: bool, bulk: Option<string>, s: ChannelRun, p: nat)
    requires Shaped(s.ch, s.r) && p < |s.ch.values|
    ensures StepPort(fault, force, bulk, s, p).ch.kind == s.ch.kind
  {}

  lemma ChannelKeepsShape(fault: nat -> Fault, force: bool, s: ChannelRun)
    requires Shaped(s.ch, s.r)
    ensures RunChannel(fault, force, s).ch.kind == s.ch.kind
  {
    hide RunPorts;
    RunFrame(fault, force, s);
  }

  /** Binary channels have less than 50 ports. */
  predicate Narrow(chs: seq<seq<Channel>>) {
    forall m, c :: 0 <= m < |chs| && 0 <= c < |chs[m]| && chs[m][c].kind == 'B' ==> |chs[m][c].values| < 50
  }

  lemma NarrowAt(chs: seq<seq<Channel>>, m: nat, c: nat)
    requires Narrow(chs) && m < |chs| && c < |chs[m]|
    ensures chs[m][c].kind == 'B' ==> |chs[m][c].values| < 50
  {}

  lemma NarrowKept(chs: seq<seq<Channel>>, m: nat, c: nat, ch: Channel)
    requires Narrow(chs) && m < |chs| && c < |chs[m]| && ch.kind == chs[m][c].kind && |ch.values| == |chs[m][c].values|
    ensures Narrow(Put(chs, m, c, ch))
  {}

  lemma ShapeAt(s: PassRun, m: nat, c: nat)
    requires s.Valid() && m < |s.chs| && c < |s.chs[m]|
    ensures |s.chs| == |s.rs| && |s.chs[m]| == |s.rs[m]| && Shaped(s.chs[m][c], s.rs[m][c])
  {}

  // ----- The bus and the manager --------------------------------------------------------------------------

  /** The modules on the bus; `fault` says what becomes of each command. */
  class Bus {
    var remote: seq<seq<Remote>>
    var commands: nat
    const fault: nat -> Fault

    predicate Has(m: nat, c: nat)
      reads this
    {
      m < |remote| && c < |remote[m]|
    }

    constructor (remote: seq<seq<Remote>>, fault: nat -> Fault)
      ensures this.remote == remote && this.fault == fault && commands == 0
    {
      this.remote, this.fault, this.commands := remote, fault, 0;
    }

    /** A command whose due reply is `text`, sent and answered. */
    method Exchange(text: string) returns (reply: Reply)
      modifies this`commands
      ensures commands == old(commands) + 1 && reply == Answer(fault(old(commands)), text)
    {
      reply := Answer(fault(commands), text);
      commands := commands + 1;
    }

    /** Command W: the module takes the value if the write is carried out. */
    method WritePort(m: nat, c: nat, p: nat, text: string) returns (reply: Reply)
      requires Has(m, c) && p < |remote[m][c].ports| && ScanInt(text).Some?
      modifies this
      ensures commands == old(commands) + 1 && reply == Answer(fault(old(commands)), [])
      ensures var f, r := fault(old(commands)), old(remote)[m][c];
              remote == if Applied(f) then Put(old(remote), m, c, WithPort(r, p, ScanInt(text).value)) else old(remote)
    {
      if Applied(fault(commands)) {
        remote := Put(remote, m, c, WithPort(remote[m][c], p, ScanInt(text).value));
      }
      reply := Exchange([]);
    }
  }

  class Manager {
    var modules: seq<seq<Channel>>
    var commErrors: nat
    var opErrors: nat
    const bus: Bus

    constructor (modules: seq<seq<Channel>>, bus: Bus)
      ensures this.modules == modules && this.bus == bus && commErrors == opErrors == 0
    {
      this.modules, this.bus, commErrors, opErrors := modules, bus, 0, 0;
    }

    ghost function Now(): PassRun
      reads this, bus
    {
      PassRun(modules, bus.remote, Ledger(bus.commands, commErrors, opErrors))
    }

    /** Channel kinds are those of this model. */
    ghost predicate Valid()
      reads this, bus
    {
      Now().Valid()
    }

    ghost predicate Has(m: nat, c: nat)
      reads this, bus
    {
      Valid() && m < |modules| && c < |modules[m]|
    }

    /**
     set_port_value: the cache takes a value only when the reply is no error; the module is told it cut to its range.
     */
    method SetPortValue(m: nat, c: nat, p: nat, value: int) returns (rv: int)
      requires Has(m, c) && p < |modules[m][c].values| && modules[m][c].kind != 'T'
      modifies this, bus
      ensures Has(m, c)
      ensures var ch, r, reply := old(modules)[m][c], old(bus.remote)[m][c], Answer(bus.fault(old(bus.commands)), []);
              && rv == (if reply.CommError? then -1 else if IsNak(reply.text) then -2 else 0)
              && modules == (if rv == 0 then Put(old(modules), m, c, WithValue(ch, p, value)) else old(modules))
              && bus.remote == (if Applied(bus.fault(old(bus.commands)))
                  then Put(old(bus.remote), m, c, WithPort(r, p, Told(ch, value)))
                                else old(bus.remote))
              && Now().ledger == old(Now()).ledger.Charge(reply)
              && commErrors == old(commErrors) + (if rv == -1 then 1 else 0)
              && opErrors == old(opErrors) + (if rv == -2 then 1 else 0)
    {
      hide Decimal, ScanInt, Told, PassRun.Valid;
      var ch := modules[m][c];
      ghost var s := Now();
      ShapeAt(s, m, c);
      var text := if ch.kind == 'B' then (if value == 0 then "0" else "1") else Decimal(Told(ch, value));
      WriteText(ch, value);
      var reply := bus.WritePort(m, c, p, text);
      StaysValid(s, m, c, p, value, Told(ch, value));
      if reply == CommError {
        commErrors := commErrors + 1;
        return -1;
      }
      if reply.text != [] && reply.text[0] == NAK {
        opErrors := opErrors + 1;
        return -2;
      }
      modules := Put(modules, m, c, WithValue(ch, p, value));
      return 0;
    }

    /** What a read command says about a port. */
    method AskPort(m: nat, c: nat, p: nat) returns (h: Heard)
      requires Has(m, c) && p < |modules[m][c].values|
      modifies this`commErrors, this`opErrors, bus`commands
      ensures (h, Now().ledger) == ReadPort(bus.fault, modules[m][c], bus.remote[m][c], p, None, old(Now()).ledger)
      ensures var reply := Answer(bus.fault(old(bus.commands)), PortText(bus.remote[m][c], p));
              && commErrors == old(commErrors) + (if reply.CommError? then 1 else 0)
              && opErrors == old(opErrors)
                             + (if reply.Content? && reply.text != [] && reply.text[0] == '\U{15}' then 1 else 0)
    {
      hide ScanInt, Decimal;
      var reply := bus.Exchange(PortText(bus.remote[m][c], p));
      if reply == CommError {
        commErrors := commErrors + 1;
        return Failed;
      }
      if reply.text != [] && reply.text[0] == NAK {
        opErrors := opErrors + 1;
        return Failed;
      }
      if modules[m][c].kind == 'B' { return Value(if |reply.text| > 0 && reply.text[0] == '0' then 0 else 1); }
      var number := ScanInt(reply.text);
      if number.None? { return Unclear; }
      return Value(number.value);
    }

    /** The body of the innermost loop of update_values; `bulk` is the reply to a read of the whole channel. */
    method UpdatePort(m: nat, c: nat, p: nat, force: bool, bulk: Option<string>)
      requires Has(m, c) && p < |modules[m][c].values| && modules[m][c].kind != 'T'
      modifies this, bus
      ensures Has(m, c) && Now() == old(Now()).With(m, c, StepPort(bus.fault, force, bulk, old(Now()).Place(m, c), p))
    {
      hide Hear;
      var ch := modules[m][c];
      ghost var s, r := Now(), bus.remote[m][c];
      Same(s, m, c, p);
      if !force && ch.modes[p] == 'N' { return; }
      var h;
      if bulk.Some? {
        h := Value(if p < |bulk.value| && bulk.value[p] == '0' then 0 else 1);
      } else {
        h := AskPort(m, c, p);
      }
      if !h.Value? { return; }
      if ch.modes[p] == 'R' || force {
        modules := Put(modules, m, c, WithValue(ch, p, h.value));
      } else if h.value != ch.values[p] {
        var rv := SetPortValue(m, c, p, ch.values[p]);
      }
    }

    /** The loop over the ports of a channel. */
    method UpdatePorts(m: nat, c: nat, force: bool, bulk: Option<string>)
      requires Has(m, c) && modules[m][c].kind != 'T'
      modifies this, bus
      ensures Has(m, c) && Now() == old(Now()).With(m, c, RunPorts(bus.fault, force, bulk, old(Now()).Place(m, c), 0))
    {
      hide StepPort;
      ghost var s := Now();
      var portn := 0;
      WithSame(s, m, c);
      while portn < |modules[m][c].values|
        invariant Has(m, c) && s.Valid() && m < |s.chs| && c < |s.chs[m]| && portn <= |modules[m][c].values|
        invariant modules[m][c].kind != 'T' && Now() == s.With(m, c, Now().Place(m, c))
        invariant RunPorts(bus.fault, force, bulk, Now().Place(m, c), portn)
                  == RunPorts(bus.fault, force, bulk, s.Place(m, c), 0)
        decreases |modules[m][c].values| - portn
      {
        ghost var s1 := Now();
        UpdatePort(m, c, portn, force, bulk);
        WithTwice(s, m, c, s1.Place(m, c), StepPort(bus.fault, force, bulk, s1.Place(m, c), portn));
        PortKeepsKind(bus.fault, force, bulk, s1.Place(m, c), portn);
        portn := portn + 1;
      }
    }

    /** The skip of update_values: nothing but ports to be ignored. */
    method OnlyIgnored(m: nat, c: nat) returns (skip: bool)
      requires Has(m, c)
      ensures skip == AllIgnored(modules[m][c])
    {
      var ch := modules[m][c];
      for portn := 0 to |ch.modes|
        invariant forall p :: 0 <= p < portn ==> ch.modes[p] == 'N'
      {
        if ch.modes[portn] != 'N' { return false; }
      }
      return true;
    }

    /** One channel of update_values: a bulk read of a binary channel if it succeeds, reads port by port if not. */
    method UpdateChannel(m: nat, c: nat, force: bool)
      requires Has(m, c) && (modules[m][c].kind == 'B' ==> |modules[m][c].values| < 50)
      modifies this, bus
      ensures Has(m, c) && Now() == old(Now()).With(m, c, RunChannel(bus.fault, force, old(Now()).Place(m, c)))
    {
      hide RunPorts;
      var ch := modules[m][c];
      ghost var s := Now();
      WithSame(s, m, c);
      if ch.kind == 'T' { return; }
      if !force {
        var skip := OnlyIgnored(m, c);
        if skip { return; }
      }
      var bulk := None;
      if ch.kind == 'B' && |ch.values| < 50 {
        var reply := bus.Exchange(BulkText(bus.remote[m][c]));
        if reply.Content? && (reply.text == [] || reply.text[0] != NAK) { bulk := Some(reply.text); }
      }
      UpdatePorts(m, c, force, bulk);
    }

    /** update_values */
    method UpdateValues(force: bool)
      requires Valid() && Narrow(modules)
      modifies this, bus
      ensures Valid() && Now() == RunPass(bus.fault, force, old(Now()), 0, 0)
    {
      hide RunPass, RunChannel, PassRun.Valid, Narrow, Put, Shaped;
      ghost var s := Now();
      var m := 0;
      while m < |modules|
        invariant Valid() && Narrow(modules) && 0 <= m <= |modules| && s.Valid() && |s.chs| == |modules|
        invariant RunPass(bus.fault, force, Now(), m, 0) == RunPass(bus.fault, force, s, 0, 0)
        decreases |s.chs| - m
      {
        var c := 0;
        while c < |modules[m]|
          invariant Valid() && Narrow(modules) && m < |modules| && 0 <= c <= |modules[m]| && s.Valid()
                    && |s.chs| == |modules|
          invariant RunPass(bus.fault, force, Now(), m, c) == RunPass(bus.fault, force, s, 0, 0)
          decreases |modules[m]| - c
        {
          ghost var s1 := Now();
          ShapeAt(s1, m, c);
          NarrowAt(modules, m, c);
          UpdateChannel(m, c, force);
          ChannelKeepsShape(bus.fault, force, s1.Place(m, c));
          NarrowKept(s1.chs, m, c, RunChannel(bus.fault, force, s1.Place(m, c)).ch);
          OnePlace(bus.fault, force, s1, m, c);
          c := c + 1;
        }
        NextModule(bus.fault, force, Now(), m);
        m := m + 1;
      }
      NoMoreModules(bus.fault, force, Now(), 0);
    }
  }
}

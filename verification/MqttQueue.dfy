/**
 The send queue of the MQTT client (libs/mqtt.c, mqtt_mq_*; macros in libs/mqtt.h). One block of
 memory holds the bytes of the queued packets, growing up from its start, and the headers of the
 queued messages, growing down from its end. The class keeps both and shows that they stand for
 a queue of messages.
 */
module MqttQueue {
  import opened Bytes
  import opened MqttTypes

  // enum MQTTQueuedMessageState
  datatype State = Unsent | AwaitingAck | Complete

  /** A queued message as a value: its packet, and the fields of its header. */
  datatype Msg = Msg(bytes: seq<byte>, control: nat, id: u16, state: State, timeSent: int)

  /** struct mqtt_queued_message; `start` is an offset from mem_start. */
  datatype Header = Header(start: nat, size: nat, state: State, timeSent: int, control: nat, id: u16)

  function TotalSize(q: seq<Msg>): nat {
    if q == [] then 0 else TotalSize(q[..|q| - 1]) + |q[|q| - 1].bytes|
  }

  lemma {:induction false} TotalSizeSplit(q: seq<Msg>, i: nat)
    requires i < |q|
    ensures TotalSize(q[..i]) + |q[i].bytes| == TotalSize(q[..i + 1]) <= TotalSize(q)
    decreases |q|
  {
    assert q[..i + 1][..i] == q[..i];
    if i + 1 < |q| {
      var p := q[..|q| - 1];
      assert p[..i] == q[..i] && p[..i + 1] == q[..i + 1];
      TotalSizeSplit(p, i);
    } else {
      assert q[..i + 1] == q;
    }
  }

  lemma {:induction false} TotalSizeAppend(p: seq<Msg>, q: seq<Msg>)
    ensures TotalSize(p + q) == TotalSize(p) + TotalSize(q)
    decreases |q|
  {
    if q == [] {
      assert p + q == p;
    } else {
      assert (p + q)[..|p + q| - 1] == p + q[..|q| - 1];
      TotalSizeAppend(p, q[..|q| - 1]);
    }
  }

  /** The bytes of the messages and of their headers. */
  function Footprint(q: seq<Msg>, headerSize: nat): nat {
    if q == [] then 0 else Footprint(q[..|q| - 1], headerSize) + |q[|q| - 1].bytes| + headerSize
  }

  lemma {:induction false} FootprintSplits(q: seq<Msg>, headerSize: nat)
    ensures Footprint(q, headerSize) == TotalSize(q) + |q| * headerSize
  {
    if q != [] {
      FootprintSplits(q[..|q| - 1], headerSize);
      assert |q| * headerSize == (|q| - 1) * headerSize + headerSize;
    }
  }

  /** mqtt_mq_currsz: the room for a packet, with the room for its header set aside. */
  function Room(q: seq<Msg>, memSize: nat, headerSize: nat): nat {
    var free := memSize - Footprint(q, headerSize) - headerSize;
    if free <= 0 then 0 else free
  }

  /** The room ends where the headers, and one more, begin. */
  lemma RoomEnds(q: seq<Msg>, memSize: nat, headerSize: nat)
    requires Room(q, memSize, headerSize) > 0
    ensures TotalSize(q) + Room(q, memSize, headerSize) + (|q| + 1) * headerSize == memSize
  {
    FootprintSplits(q, headerSize);
    assert (|q| + 1) * headerSize == |q| * headerSize + headerSize;
  }

  /** How many messages at the head of the queue are complete. */
  function Done(q: seq<Msg>): (n: nat)
    ensures n <= |q|
  {
    if q == [] || q[0].state != Complete then 0 else 1 + Done(q[1..])
  }

  lemma {:induction false} DoneIsLongest(q: seq<Msg>)
    ensures forall i :: 0 <= i < Done(q) ==> q[i].state == Complete
    ensures Done(q) < |q| ==> q[Done(q)].state != Complete
  {
    if q != [] && q[0].state == Complete {
      DoneIsLongest(q[1..]);
      forall i | 0 <= i < Done(q)
        ensures q[i].state == Complete
      {
        if i > 0 { assert q[1..][i - 1].state == Complete; }
      }
    }
  }

  /** What mqtt_mq_clean leaves. */
  function Cleaned(q: seq<Msg>): seq<Msg> {
    q[Done(q)..]
  }

  predicate Matches(m: Msg, control: nat, id: int) {
    m.control == control && (if id < 0 then m.state != Complete else m.id == id)
  }

  const ANY: int := -1

  /** mqtt_mq_find: the index of the first match, or the length of the queue. A packet id of NULL is ANY. */
  function Find(q: seq<Msg>, control: nat, id: int): (k: nat)
    ensures k <= |q| && (k < |q| ==> Matches(q[k], control, id))
    ensures forall i :: 0 <= i < k ==> !Matches(q[i], control, id)
  {
    if q == [] || Matches(q[0], control, id) then 0 else 1 + Find(q[1..], control, id)
  }

  /** memmove: all of the source range is read before the target range is written. */
  method Memmove<T>(a: array<T>, dest: nat, src: nat, n: nat)
    requires dest + n <= a.Length && src + n <= a.Length
    modifies a
    ensures a[..] == old(a[..dest] + a[src..src + n] + a[dest + n..])
  {
    forall i | 0 <= i < n { a[dest + i] := a[src + i]; }
  }

  lemma {:induction false} LessThanOne(x: int, d: nat)
    requires x * d < d
    ensures x < 1
  {}

  lemma {:induction false} DivisionRoom(k: nat, d: nat, total: nat)
    requires d > 0 && k * d <= total
    ensures k <= total / d
  {
    var q := total / d;
    assert q * d + total % d == total;
    assert (k - q) * d == k * d - q * d;
    LessThanOne(k - q, d);
  }

  /** Header `h` describes the i-th message of `q` in the block `mem`. */
  ghost predicate Describes(h: Header, mem: seq<byte>, q: seq<Msg>, i: nat)
    requires i < |q|
  {
    && h.start == TotalSize(q[..i]) && h.size == |q[i].bytes|
    && h.start + h.size <= |mem| && mem[h.start..h.start + h.size] == q[i].bytes
    && h.state == q[i].state && h.timeSent == q[i].timeSent && h.control == q[i].control && h.id == q[i].id
  }

  /** mqtt_mq_get: the i-th header from the end of the block. */
  function Get(slots: seq<Header>, i: nat): Header
    requires i < |slots|
  {
    slots[|slots| - 1 - i]
  }

  /** The headers at the end of `slots`, last one first, describe `q`. */
  ghost predicate Layout(mem: seq<byte>, slots: seq<Header>, q: seq<Msg>) {
    && |q| <= |slots|
    && forall i :: 0 <= i < |q| ==> Describes(Get(slots, i), mem, q, i)
  }

  /** A new header in front of the others describes a message appended to the queue. */
  lemma {:induction false} LayoutAppend(mem: seq<byte>, slots: seq<Header>, q: seq<Msg>, h: Header, m: Msg)
    requires Layout(mem, slots, q) && |q| < |slots|
    requires h == Header(TotalSize(q), |m.bytes|, m.state, m.timeSent, m.control, m.id)
    requires TotalSize(q) + |m.bytes| <= |mem| && mem[TotalSize(q)..TotalSize(q) + |m.bytes|] == m.bytes
    ensures Layout(mem, slots[|slots| - 1 - |q| := h], q + [m])
  {
    var q', slots' := q + [m], slots[|slots| - 1 - |q| := h];
    forall i | 0 <= i < |q'|
      ensures Describes(Get(slots', i), mem, q', i)
    {
      assert q'[..i] == q[..i];
      if i < |q| {
        assert Get(slots', i) == Get(slots, i) && q'[i] == q[i];
      } else {
        assert q'[..|q|] == q && Get(slots', i) == h;
      }
    }
  }

  // ----- Dropping messages from the head ------------------------------------------------------------

  lemma {:induction false} TotalSizeDrop(q: seq<Msg>, k: nat, i: nat)
    requires k + i <= |q|
    ensures TotalSize(q[..k + i]) == TotalSize(q[..k]) + TotalSize(q[k..][..i])
  {
    assert q[..k + i] == q[..k] + q[k..][..i];
    TotalSizeAppend(q[..k], q[k..][..i]);
  }

  lemma {:induction false} RestSize(q: seq<Msg>, k: nat, d: nat)
    requires k <= |q|
    ensures TotalSize(q[k..]) == TotalSize(q) - TotalSize(q[..k])
    ensures |q[k..]| * d <= |q| * d && Footprint(q[k..], d) <= Footprint(q, d)
  {
    hide TotalSize, Footprint;
    var left := q[k..];
    TotalSizeAppend(q[..k], left);
    assert q[..k] + left == q;
    FootprintSplits(q, d);
    FootprintSplits(left, d);
    assert |q| * d == |left| * d + k * d;
  }

  /** The i-th header of `slots'` is the (k + i)-th of `slots`, with its start moved down. */
  ghost predicate Pulled(slots: seq<Header>, k: nat, removing: nat, slots': seq<Header>, i: nat)
    requires k + i < |slots| && i < |slots'|
  {
    var h := Get(slots, k + i);
    h.start >= removing && Get(slots', i) == h.(start := h.start - removing)
  }

  lemma {:induction false} DescribesDropped(h: Header, mem: seq<byte>, q: seq<Msg>, k: nat, i: nat, mem': seq<byte>)
    requires k + i < |q| && Describes(h, mem, q, k + i)
    requires TotalSize(q[..k]) <= TotalSize(q) <= |mem| == |mem'|
    requires mem'[..TotalSize(q) - TotalSize(q[..k])] == mem[TotalSize(q[..k])..TotalSize(q)]
    ensures h.start >= TotalSize(q[..k])
    ensures Describes(h.(start := h.start - TotalSize(q[..k])), mem', q[k..], i)
  {
    hide TotalSize;
    var removing, whole := TotalSize(q[..k]), TotalSize(q);
    TotalSizeDrop(q, k, i);
    TotalSizeSplit(q, k + i);
    var from := h.start - removing;
    Subslice(mem', 0, whole - removing, from, from + h.size);
    Subslice(mem, removing, whole, from, from + h.size);
  }

  /** Moving the bytes of the survivors to the start and pulling their headers along keeps them as they were. */
  lemma {:induction false} LayoutDrop(mem: seq<byte>, slots: seq<Header>, q: seq<Msg>, k: nat, mem': seq<byte>,
                                      slots': seq<Header>)
    requires Layout(mem, slots, q) && k <= |q| && |slots'| == |slots|
    requires TotalSize(q[..k]) <= TotalSize(q) <= |mem| == |mem'|
    requires mem'[..TotalSize(q) - TotalSize(q[..k])] == mem[TotalSize(q[..k])..TotalSize(q)]
    requires forall i :: 0 <= i < |q| - k ==> Pulled(slots, k, TotalSize(q[..k]), slots', i)
    ensures Layout(mem', slots', q[k..])
  {
    forall i | 0 <= i < |q[k..]|
      ensures Describes(Get(slots', i), mem', q[k..], i)
    {
      var h := Get(slots, k + i);
      assert Describes(h, mem, q, k + i);
      assert Pulled(slots, k, TotalSize(q[..k]), slots', i);
      DescribesDropped(h, mem, q, k, i, mem');
    }
  }

  lemma {:induction false} DoneFrom(q: seq<Msg>, k: nat)
    requires k <= |q| && forall i :: 0 <= i < k ==> q[i].state == Complete
    ensures Done(q) == k + Done(q[k..])
    decreases |q|
  {
    if k == 0 {
      assert q[0..] == q;
    } else {
      assert q[k..] == q[1..][k - 1..];
      DoneFrom(q[1..], k - 1);
    }
  }

  lemma {:induction false} StartsGrow(mem: seq<byte>, slots: seq<Header>, q: seq<Msg>, k: nat, i: nat)
    requires Layout(mem, slots, q) && k <= i < |q|
    ensures TotalSize(q[..k]) <= Get(slots, i).start == TotalSize(q[..i]) <= TotalSize(q)
  {
    assert Describes(Get(slots, i), mem, q, i);
    TotalSizeDrop(q, k, i - k);
    TotalSizeSplit(q, i);
  }

  lemma {:induction false} MovedStarts(mem: seq<byte>, slots: seq<Header>, q: seq<Msg>, k: nat, moved: seq<Header>)
    requires Layout(mem, slots, q) && k <= |q| && |moved| == |slots|
    requires forall i :: 0 <= i < |q| - k ==> Get(moved, i) == Get(slots, k + i)
    ensures forall i :: 0 <= i < |q| - k ==> Get(moved, i).start >= TotalSize(q[..k])
  {
    forall i | 0 <= i < |q| - k
      ensures Get(moved, i).start >= TotalSize(q[..k])
    {
      StartsGrow(mem, slots, q, k, k + i);
    }
  }

  lemma {:induction false} PulledAfterBump(mem: seq<byte>, slots: seq<Header>, q: seq<Msg>, k: nat, moved: seq<Header>,
                                           slots': seq<Header>)
    requires Layout(mem, slots, q) && k <= |q| && |moved| == |slots| == |slots'|
    requires forall i :: 0 <= i < |q| - k ==> Get(moved, i) == Get(slots, k + i)
    requires forall i :: 0 <= i < |q| - k ==>
               Get(moved, i).start >= TotalSize(q[..k]) && Get(slots', i)
                   == Get(moved, i).(start := Get(moved, i).start - TotalSize(q[..k]))
    ensures forall i :: 0 <= i < |q| - k ==> Pulled(slots, k, TotalSize(q[..k]), slots', i)
  {
    forall i | 0 <= i < |q| - k
      ensures Pulled(slots, k, TotalSize(q[..k]), slots', i)
    {
      assert Get(moved, i) == Get(slots, k + i);
    }
  }

  // ----- Updating a message in place ----------------------------------------------------------------

  lemma {:induction false} TotalSizeUpdate(q: seq<Msg>, k: nat, m: Msg, i: nat)
    requires k < |q| && |m.bytes| == |q[k].bytes| && i <= |q|
    ensures TotalSize(q[k := m][..i]) == TotalSize(q[..i])
    decreases i
  {
    var q' := q[k := m];
    if i > 0 {
      assert q'[..i][..i - 1] == q'[..i - 1] && q[..i][..i - 1] == q[..i - 1];
      TotalSizeUpdate(q, k, m, i - 1);
    }
  }

  lemma {:induction false} FootprintUpdate(q: seq<Msg>, k: nat, m: Msg, headerSize: nat)
    requires k < |q| && |m.bytes| == |q[k].bytes|
    ensures TotalSize(q[k := m]) == TotalSize(q)
    ensures Footprint(q[k := m], headerSize) == Footprint(q, headerSize)
  {
    TotalSizeUpdate(q, k, m, |q|);
    assert q[..|q|] == q && q[k := m][..|q|] == q[k := m];
    FootprintSplits(q, headerSize);
    FootprintSplits(q[k := m], headerSize);
  }

  lemma {:induction false} LayoutUpdate(mem: seq<byte>, slots: seq<Header>, q: seq<Msg>, k: nat, h: Header, m: Msg)
    requires Layout(mem, slots, q) && k < |q|
    requires h.start == Get(slots, k).start && h.size == Get(slots, k).size && m.bytes == q[k].bytes
    requires h.state == m.state && h.timeSent == m.timeSent && h.control == m.control && h.id == m.id
    ensures Layout(mem, slots[|slots| - 1 - k := h], q[k := m])
  {
    var q', slots' := q[k := m], slots[|slots| - 1 - k := h];
    forall i | 0 <= i < |q'|
      ensures Describes(Get(slots', i), mem, q', i)
    {
      assert Describes(Get(slots, i), mem, q, i);
      TotalSizeUpdate(q, k, m, i);
      assert i != k ==> Get(slots', i) == Get(slots, i);
    }
  }

  /** A byte inside the k-th packet belongs to no other packet. */
  lemma {:induction false} LayoutPoke(mem: seq<byte>, slots: seq<Header>, q: seq<Msg>, k: nat, b: byte)
    requires Layout(mem, slots, q) && k < |q| && q[k].bytes != []
    ensures TotalSize(q[..k]) < |mem|
    ensures Layout(mem[TotalSize(q[..k]) := b], slots, q[k := q[k].(bytes := q[k].bytes[0 := b])])
  {
    var m := q[k].(bytes := q[k].bytes[0 := b]);
    var q', at := q[k := m], TotalSize(q[..k]);
    assert Describes(Get(slots, k), mem, q, k);
    var mem' := mem[at := b];
    forall i | 0 <= i < |q'|
      ensures Describes(Get(slots, i), mem', q', i)
    {
      assert Describes(Get(slots, i), mem, q, i);
      TotalSizeUpdate(q, k, m, i);
      Apart(q, i, k);
      var h := Get(slots, i);
      assert i != k ==> mem'[h.start..h.start + h.size] == mem[h.start..h.start + h.size];
      assert i == k ==> mem'[h.start..h.start + h.size] == q[k].bytes[0 := b];
    }
  }

  lemma {:induction false} Apart(q: seq<Msg>, i: nat, k: nat)
    requires i < |q| && k < |q|
    ensures i < k ==> TotalSize(q[..i]) + |q[i].bytes| <= TotalSize(q[..k])
    ensures k < i ==> TotalSize(q[..k]) + |q[k].bytes| <= TotalSize(q[..i])
  {
    if i < k {
      TotalSizeSplit(q[..k], i);
      assert q[..k][..i] == q[..i] && q[..k][..i + 1] == q[..i + 1];
    } else if k < i {
      TotalSizeSplit(q[..i], k);
      assert q[..i][..k] == q[..k] && q[..i][..k + 1] == q[..k + 1];
    }
  }

  class MessageQueue {
    const mem: array<byte>
    /** The headers, in memory order: the last slot ends at mem_end. */
    const slots: array<Header>
    const headerSize: nat
    var curr: nat
    var currSz: nat
    /** queue_tail, as an index into the slots. */
    var tail: nat
    ghost var contents: seq<Msg>

    /** The packets lie one behind the other from mem_start to curr, the headers are behind curr. */
    ghost predicate Valid()
      reads this, mem, slots
    {
      && headerSize > 0 && slots.Length == mem.Length / headerSize
      && |contents| <= slots.Length && tail == slots.Length - |contents|
      && curr == TotalSize(contents)
      && curr + |contents| * headerSize <= mem.Length
      && currSz == Room(contents, mem.Length, headerSize) && curr + currSz <= mem.Length
      && Layout(mem[..], slots[..], contents)
    }

    /** The bytes from the start of the first `count` headers to mem_end are as they were. */
    twostate predicate HeadersSpared(count: nat)
      reads mem
    {
      forall i :: 0 <= i < mem.Length && mem.Length - count * headerSize <= i ==> mem[i] == old(mem[i])
    }

    /** mqtt_mq_init */
    constructor (mem: array<byte>, headerSize: nat)
      requires headerSize > 0
      ensures Valid() && contents == [] && this.mem == mem && this.headerSize == headerSize && fresh(slots)
    {
      this.mem, this.headerSize := mem, headerSize;
      slots := new Header[mem.Length / headerSize](_ => Header(0, 0, Unsent, 0, 0, 0));
      curr, tail := 0, mem.Length / headerSize;
      currSz := if mem.Length - headerSize <= 0 then 0 else mem.Length - headerSize;
      contents := [];
    }

    /** mqtt_mq_length */
    method Length() returns (n: nat)
      requires Valid()
      ensures n == |contents|
    {
      n := slots.Length - tail;
    }

    /** mqtt_mq_currsz */
    method CurrSz() returns (room: nat)
      requires |contents| <= slots.Length && tail == slots.Length - |contents| && curr == TotalSize(contents)
      ensures room == Room(contents, mem.Length, headerSize) && (curr <= mem.Length ==> curr + room <= mem.Length)
    {
      FootprintSplits(contents, headerSize);
      assert (|contents| + 1) * headerSize == |contents| * headerSize + headerSize;
      var free := mem.Length - (slots.Length - tail + 1) * headerSize - curr;
      room := if free <= 0 then 0 else free;
    }

    /** mqtt_mq_register; the fields it does not set keep what the memory held, here `stale`. */
    method Register(nbytes: nat, stale: Header)
      requires Valid() && 0 < nbytes <= currSz
      modifies this, slots
      ensures Valid()
      ensures contents == old(contents) + [Msg(mem[old(curr)..old(curr) + nbytes], stale.control, stale.id, Unsent,
              stale.timeSent)]
    {
      ghost var q, m := contents, Msg(mem[curr..curr + nbytes], stale.control, stale.id, Unsent, stale.timeSent);
      assert (|q| + 1) * headerSize == |q| * headerSize + headerSize;
      FootprintSplits(q, headerSize);
      DivisionRoom(|q| + 1, headerSize, mem.Length);
      var h := Header(curr, nbytes, Unsent, stale.timeSent, stale.control, stale.id);
      LayoutAppend(mem[..], slots[..], q, h, m);
      TotalSizeAppend(q, [m]);
      assert TotalSize([m]) == nbytes by { assert [m][..0] == []; }
      tail := tail - 1;
      slots[tail] := h;
      assert slots[..] == old(slots[..])[tail := h];
      curr := curr + nbytes;
      contents := q + [m];
      currSz := CurrSz();
    }
  
    /** The fields a caller of mqtt_mq_register fills in. */
    method Update(k: nat, state: State, timeSent: int, control: nat, id: u16)
      requires Valid() && k < |contents|
      modifies this`contents, slots
      ensures Valid()
      ensures contents == old(contents)[k := old(contents)[k].(state := state, timeSent := timeSent, control := control,
              id := id)]
    {
      ghost var m := contents[k].(state := state, timeSent := timeSent, control := control, id := id);
      var at := slots.Length - 1 - k;
      var h := slots[at].(state := state, timeSent := timeSent, control := control, id := id);
      LayoutUpdate(mem[..], slots[..], contents, k, h, m);
      FootprintUpdate(contents, k, m, headerSize);
      slots[at] := h;
      assert slots[..] == old(slots[..])[at := h];
      contents := contents[k := m];
    }

    /** msg->start[0] = b */
    method Poke(k: nat, b: byte)
      requires Valid() && k < |contents| && contents[k].bytes != []
      modifies this`contents, mem
      ensures Valid() && HeadersSpared(|contents|)
      ensures contents == old(contents)[k := old(contents)[k].(bytes := old(contents)[k].bytes[0 := b])]
    {
      ghost var m := contents[k].(bytes := contents[k].bytes[0 := b]);
      var start := slots[slots.Length - 1 - k].start;
      assert Describes(Get(slots[..], k), mem[..], contents, k);
      LayoutPoke(mem[..], slots[..], contents, k, b);
      FootprintUpdate(contents, k, m, headerSize);
      TotalSizeSplit(contents, k);
      mem[start] := b;
      assert mem[..] == old(mem[..])[start := b];
      contents := contents[k := m];
    }

    /** The header that belongs to message `k`. */
    ghost function HeaderOf(k: nat): Header
      requires k < |contents|
      reads this
    {
      var m := contents[k];
      Header.Header(TotalSize(contents[..k]), |m.bytes|, m.state, m.timeSent, m.control, m.id)
    }

    /** mqtt_mq_get(mq, k)->packet_id */
    method IdAt(k: nat) returns (id: u16)
      requires Valid() && k < |contents|
      ensures id == contents[k].id
    {
      assert Describes(Get(slots[..], k), mem[..], contents, k);
      id := slots[slots.Length - 1 - k].id;
    }

    /** The header of mqtt_mq_get(mq, k), and msg->start[0]. */
    method Look(k: nat) returns (h: Header, first: byte)
      requires Valid() && k < |contents| && contents[k].bytes != []
      ensures h == HeaderOf(k) && first == contents[k].bytes[0]
      ensures h.start + h.size <= mem.Length && mem[h.start..h.start + h.size] == contents[k].bytes
    {
      h := slots[slots.Length - 1 - k];
      assert Describes(Get(slots[..], k), mem[..], contents, k);
      assert mem[..][h.start..h.start + h.size] == mem[h.start..h.start + h.size];
      first := mem[h.start];
      assert first == mem[h.start..h.start + h.size][0];
    }

    /** mqtt_mq_find */
    method FindMessage(control: nat, id: int) returns (k: nat)
      requires Valid()
      ensures k == Find(contents, control, id)
    {
      k := 0;
      assert contents[0..] == contents;
      while k < slots.Length - tail
        invariant k <= |contents|
        invariant Find(contents, control, id) == k + Find(contents[k..], control, id)
      {
        var h := slots[slots.Length - 1 - k];
        assert Describes(Get(slots[..], k), mem[..], contents, k);
        if h.control == control {
          if (id < 0 && h.state != Complete) || (id >= 0 && id == h.id) {
            return;
          }
        }
        assert contents[k..][1..] == contents[k + 1..];
        k := k + 1;
      }
    }

    /** The loop of mqtt_mq_clean that looks for the new head. */
    method NewHead() returns (newHead: nat)
      requires Valid()
      ensures newHead == Done(contents)
    {
      newHead := 0;
      while newHead < slots.Length - tail
        invariant 0 <= newHead <= |contents|
        invariant forall i :: 0 <= i < newHead ==> contents[i].state == Complete
      {
        assert Describes(Get(slots[..], newHead), mem[..], contents, newHead);
        if slots[slots.Length - 1 - newHead].state != Complete { break; }
        newHead := newHead + 1;
      }
      DoneFrom(contents, newHead);
    }

    /** mqtt_mq_clean: exactly the complete messages at the head go. */
    method Clean()
      requires Valid()
      modifies this, mem, slots
      ensures Valid() && contents == Cleaned(old(contents)) && HeadersSpared(|old(contents)|)
    {
      var newHead := NewHead();
      if newHead == slots.Length - tail {
        curr, tail := 0, slots.Length;
        contents := [];
        currSz := CurrSz();
      } else if newHead > 0 {
        Compact(newHead);
      }
    }

    /** Moves the bytes of the messages from `newHead` on to the start of the block. */
    method MoveBytes(removing: nat, upTo: nat)
      requires removing <= upTo <= mem.Length
      modifies mem
      ensures mem[..upTo - removing] == old(mem[removing..upTo])
      ensures forall i :: upTo <= i < mem.Length ==> mem[i] == old(mem[i])
    {
      ghost var before := mem[..];
      Memmove(mem, 0, removing, upTo - removing);
      assert mem[..] == before[removing..upTo] + before[upTo - removing..];
      forall i | upTo <= i < mem.Length
        ensures mem[i] == before[i]
      {
        assert mem[..][i] == before[i];
      }
    }

    /** Moves the headers of the messages from `newHead` on to the end of the block. */
    method MoveHeaders(newHead: nat)
      requires tail + newHead < slots.Length
      modifies slots
      ensures forall i :: 0 <= i < slots.Length - tail - newHead
                ==> Get(slots[..], i) == Get(old(slots[..]), newHead + i)
    {
      ghost var before := slots[..];
      var newTailIdx := slots.Length - 1 - newHead - tail;
      var to := slots.Length - 1 - newTailIdx;
      Memmove(slots, to, tail, newTailIdx + 1);
      forall i | 0 <= i <= newTailIdx
        ensures Get(slots[..], i) == Get(before, newHead + i)
      {
        assert slots[..][slots.Length - 1 - i] == before[tail..tail + newTailIdx + 1][newTailIdx - i];
      }
    }

    /** Bumps back the starts of the first `count` messages. */
    method Bump(count: nat, removing: nat)
      requires count <= slots.Length
      requires forall i :: 0 <= i < count ==> Get(slots[..], i).start >= removing
      modifies slots
      ensures forall i :: 0 <= i < count
                ==> Get(slots[..], i) == Get(old(slots[..]), i).(start := Get(old(slots[..]), i).start - removing)
    {
      ghost var before := slots[..];
      var i := 0;
      while i < count
        invariant 0 <= i <= count
        invariant forall j :: 0 <= j < i
                    ==> Get(slots[..], j) == Get(before, j).(start := Get(before, j).start - removing)
        invariant forall j :: i <= j < count ==> Get(slots[..], j) == Get(before, j)
      {
        var at := slots.Length - 1 - i;
        assert Get(slots[..], i) == Get(before, i);
        slots[at] := slots[at].(start := slots[at].start - removing);
        i := i + 1;
      }
    }

    /** Moves bytes and headers so that they describe the messages from `newHead` on. */
    method MoveMessages(newHead: nat) returns (removing: nat)
      requires Valid() && 0 < newHead < |contents|
      modifies mem, slots
      ensures removing == TotalSize(contents[..newHead]) <= curr && HeadersSpared(|contents|)
      ensures Layout(mem[..], slots[..], contents[newHead..])
    {
      ghost var q, oldMem, oldSlots := contents, mem[..], slots[..];
      removing := slots[slots.Length - 1 - newHead].start;
      StartsGrow(oldMem, oldSlots, q, newHead, newHead);
      assert Get(oldSlots, newHead).start == removing;
      MoveBytes(removing, curr);
      assert mem[..][..curr - removing] == oldMem[removing..curr];
      MoveHeaders(newHead);
      ghost var moved := slots[..];
      var count := slots.Length - tail - newHead;
      MovedStarts(oldMem, oldSlots, q, newHead, moved);
      Bump(count, removing);
      PulledAfterBump(oldMem, oldSlots, q, newHead, moved, slots[..]);
      LayoutDrop(oldMem, oldSlots, q, newHead, mem[..], slots[..]);
    }

    /** The compaction of mqtt_mq_clean: the messages from `newHead` on survive. */
    method Compact(newHead: nat)
      requires Valid() && 0 < newHead < |contents|
      modifies this, mem, slots
      ensures Valid() && contents == old(contents)[newHead..] && HeadersSpared(|old(contents)|)
    {
      var removing := MoveMessages(newHead);
      RestSize(contents, newHead, headerSize);
      curr := curr - removing;
      tail := tail + newHead;
      contents := contents[newHead..];
      currSz := CurrSz();
    }
  }
}

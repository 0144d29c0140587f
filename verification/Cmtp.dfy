/** CMTP: CAPI messages reassembled from numbered blocks, in a table of ten connections with sixteen blocks each. */
module Cmtp {
  import opened Bytes
  import opened SlotTable

  const TABLE_SIZE := 10

  datatype Key = Key(handle: nat, cid: nat)

  /** How a block ends: complete message, segment of one, or error (also the reserved code). */
  datatype Status = Complete | Segment | Failed

  datatype Block = Block(status: Status, bid: nat, data: seq<byte>)

  // ---- blocks of a frame ----

  function LengthOctets(hdr: byte): nat {
    if hdr / 64 == 1 then 1 else if hdr / 64 == 2 then 2 else 0
  }

  /** The length field, least significant octet first. */
  function DataLength(frm: seq<byte>): nat
    requires |frm| > 0 && |frm| > LengthOctets(frm[0])
  {
    if LengthOctets(frm[0]) == 1 then frm[1]
    else if LengthOctets(frm[0]) == 2 then FromBE([frm[2], frm[1]])
    else 0
  }

  function StatusOf(hdr: byte): Status {
    if hdr % 4 == 0 then Complete else if hdr % 4 == 1 then Segment else Failed
  }

  function BlockSize(frm: seq<byte>): nat
    requires |frm| > 0 && |frm| > LengthOctets(frm[0])
  {
    1 + LengthOctets(frm[0]) + DataLength(frm)
  }

  /** Every block of the frame lies within it; the dumper relies on this and does not check it. */
  predicate WellFormed(frm: seq<byte>) {
    frm == [] || (|frm| > LengthOctets(frm[0]) && BlockSize(frm) <= |frm| && WellFormed(frm[BlockSize(frm)..]))
  }

  function FirstBlock(frm: seq<byte>): Block
    requires frm != [] && |frm| > LengthOctets(frm[0]) && BlockSize(frm) <= |frm|
  {
    Block(StatusOf(frm[0]), (frm[0] / 4) % 16, frm[1 + LengthOctets(frm[0])..BlockSize(frm)])
  }

  /** A block as it is sent: status in bits 0 and 1, block id in bits 2 to 5, and in bits 6 and 7 whether no, one or two
      octets of length follow, the low one first. */
  function Sent(status: nat, bid: nat, lengthOctets: nat, data: seq<byte>): seq<byte>
    requires status < 4 && bid < 16 && lengthOctets < 3
  {
    [status + 4 * bid + 64 * lengthOctets]
    + (if lengthOctets == 0 then [] else if lengthOctets == 1 then [|data| % 256] else [|data| % 256, |data| / 256 % 256])
    + data
  }

  /** Reading a block undoes sending it, whatever follows, if its length fits. */
  lemma BlockReads(status: nat, bid: nat, lengthOctets: nat, data: seq<byte>, t: seq<byte>)
    requires status < 4 && bid < 16 && lengthOctets < 3
    requires |data| < (if lengthOctets == 0 then 1 else if lengthOctets == 1 then 0x100 else 0x1_0000)
    ensures var frm := Sent(status, bid, lengthOctets, data) + t;
            && |frm| > LengthOctets(frm[0]) && BlockSize(frm) == |Sent(status, bid, lengthOctets, data)|
            && FirstBlock(frm) == Block(if status == 0 then Complete else if status == 1 then Segment else Failed, bid, data)
            && frm[BlockSize(frm)..] == t
  {
    var s := Sent(status, bid, lengthOctets, data);
    var frm := s + t;
    HeaderBits(status, bid, lengthOctets);
    assert frm[0] == status + 4 * bid + 64 * lengthOctets;
    if lengthOctets == 2 {
      LowFirst(frm[1], frm[2]);
    }
    assert BlockSize(frm) == |s|;
    assert frm[1 + lengthOctets..|s|] == s[1 + lengthOctets..] == data;
  }

  lemma HeaderBits(status: nat, bid: nat, lengthOctets: nat)
    requires status < 4 && bid < 16 && lengthOctets < 3
    ensures var h := status + 4 * bid + 64 * lengthOctets;
            h < 256 && h % 4 == status && h / 4 % 16 == bid && h / 64 == lengthOctets
  {
  }

  lemma LowFirst(lo: byte, hi: byte)
    ensures FromBE([hi, lo]) == lo + 256 * (hi as int)
  {
    assert [hi, lo][..1] == [hi];
    FromBEOne(hi);
  }

  // ---- the table as a map ----

  /** Sixteen buffers, by block id. */
  type Buffers = b: seq<seq<byte>> | |b| == 16 witness [[], [], [], [], [], [], [], [], [], [], [], [], [], [], [], []]

  const NO_DATA: Buffers := [[], [], [], [], [], [], [], [], [], [], [], [], [], [], [], []]

  function Put(b: Buffers, bid: nat, data: seq<byte>): Buffers
    requires bid < 16
  {
    b[bid := data]
  }

  type Table = map<Key, Buffers>

  function Content(m: Table, key: Key, bid: nat): seq<byte>
    requires bid < 16
  {
    if key in m then m[key][bid] else []
  }

  /** add_segment, when the connection has or gets a slot. */
  function Added(m: Table, key: Key, bid: nat, data: seq<byte>): Table
    requires bid < 16
  {
    var b := if key in m then m[key] else NO_DATA;
    m[key := Put(b, bid, b[bid] + data)]
  }

  /** free_segment: the slot is released once all sixteen buffers are empty. */
  function Freed(m: Table, key: Key, bid: nat): Table
    requires bid < 16
  {
    if key !in m then m
    else
      var b := Put(m[key], bid, []);
      if b == NO_DATA then m - {key} else m[key := b]
  }

  predicate HasRoom(m: Table, key: Key) {
    key in m || |m| < TABLE_SIZE
  }

  /** One block: the table after it. A block for a connection that finds the table full is dropped. */
  function Next(m: Table, key: Key, b: Block): Table
    requires b.bid < 16
  {
    match b.status
    case Complete => if HasRoom(m, key) then Freed(Added(m, key, b.bid, b.data), key, b.bid) else m
    case Segment => if HasRoom(m, key) then Added(m, key, b.bid, b.data) else m
    case Failed => Freed(m, key, b.bid)
  }

  /** The message a block completes, if any. */
  function Delivered(m: Table, key: Key, b: Block): seq<(Key, seq<byte>)>
    requires b.bid < 16
  {
    if b.status.Complete? && HasRoom(m, key) then [(key, Content(m, key, b.bid) + b.data)] else []
  }

  // ---- runs ----

  /** A block that arrived on a connection. */
  datatype Event = Event(key: Key, block: Block)

  ghost predicate Proper(events: seq<Event>) {
    forall i :: 0 <= i < |events| ==> events[i].block.bid < 16
  }

  ghost function Events(key: Key, frm: seq<byte>): (events: seq<Event>)
    requires WellFormed(frm)
    ensures Proper(events)
  {
    if frm == [] then [] else [Event(key, FirstBlock(frm))] + Events(key, frm[BlockSize(frm)..])
  }

  /** The table after a run of blocks. */
  ghost function After(m: Table, events: seq<Event>): Table
    requires Proper(events)
    decreases |events|
  {
    if events == [] then m else After(Next(m, events[0].key, events[0].block), events[1..])
  }

  /** The messages delivered in a run. */
  ghost function Messages(m: Table, events: seq<Event>): seq<(Key, seq<byte>)>
    requires Proper(events)
    decreases |events|
  {
    if events == [] then []
    else Delivered(m, events[0].key, events[0].block) + Messages(Next(m, events[0].key, events[0].block), events[1..])
  }

  lemma EventsStep(key: Key, frm: seq<byte>)
    requires WellFormed(frm) && frm != []
    ensures Events(key, frm)[0] == Event(key, FirstBlock(frm))
    ensures Events(key, frm)[1..] == Events(key, frm[BlockSize(frm)..])
  {
  }

  lemma MessagesStep(out: seq<(Key, seq<byte>)>, m: Table, events: seq<Event>)
    requires Proper(events) && events != []
    ensures var e := events[0];
            out + Messages(m, events) == out + Delivered(m, e.key, e.block) + Messages(Next(m, e.key, e.block), events[1..])
  {
    hide Delivered, Next;
  }

  lemma AddedContent(m: Table, key: Key, bid: nat, data: seq<byte>)
    requires bid < 16
    ensures key in Added(m, key, bid, data) && Added(m, key, bid, data)[key][bid] == Content(m, key, bid) + data
    ensures !HasRoom(m, key) ==> key !in m
  {
    assert NO_DATA[bid] == [];
  }

  /** Adds up the sixteen lengths. */
  method TotalLength(b: Buffers) returns (len: nat)
    ensures len == 0 <==> b == NO_DATA
  {
    len := 0;
    var i := 0;
    while i < 16
      invariant 0 <= i <= 16
      invariant len == 0 <==> forall j :: 0 <= j < i ==> b[j] == []
    {
      len := len + |b[i]|;
      i := i + 1;
    }
    assert len == 0 ==> b == NO_DATA;
  }

  class Reassembler {
    var slots: seq<Slot<Key, Buffers>>
    var out: seq<(Key, seq<byte>)>

    ghost predicate Valid()
      reads this
    {
      |slots| == TABLE_SIZE && Distinct(slots)
    }

    constructor ()
      ensures Valid() && AsMap(slots) == map[] && out == []
    {
      slots := seq(TABLE_SIZE, _ => Free);
      out := [];
    }

    method AddSegment(key: Key, bid: nat, data: seq<byte>)
      requires Valid() && bid < 16
      modifies this`slots
      ensures Valid()
      ensures AsMap(slots) == if HasRoom(old(AsMap(slots)), key) then Added(old(AsMap(slots)), key, bid, data)
                              else old(AsMap(slots))
    {
      var pos := Scan(slots, key);
      KeysFind(slots, key);
      FullIff(slots);
      if pos < 0 {
        return;
      }
      var b: Buffers := if slots[pos].Used? then slots[pos].val else NO_DATA;
      b := Put(b, bid, b[bid] + data);
      Stored(slots, key, b);
      slots := slots[pos := Used(key, b)];
    }

    method GetSegment(key: Key, bid: nat) returns (found: bool, msg: seq<byte>)
      requires Valid() && bid < 16
      ensures found <==> key in AsMap(slots)
      ensures found ==> msg == AsMap(slots)[key][bid]
    {
      var i := 0;
      while i < |slots|
        invariant 0 <= i <= |slots|
        invariant forall j :: 0 <= j < i ==> !(slots[j].Used? && slots[j].key == key)
      {
        if slots[i].Used? && slots[i].key == key {
          FindIs(slots, i);
          KeysFind(slots, key);
          return true, slots[i].val[bid];
        }
        i := i + 1;
      }
      KeysFind(slots, key);
      found, msg := false, [];
    }

    method FreeSegment(key: Key, bid: nat)
      requires Valid() && bid < 16
      modifies this`slots
      ensures Valid() && AsMap(slots) == Freed(old(AsMap(slots)), key, bid)
    {
      var pos := Find(slots, key);
      KeysFind(slots, key);
      if pos < 0 {
        return;
      }
      var b: Buffers := Put(slots[pos].val, bid, []);
      var len := TotalLength(b);
      if len == 0 {
        Cleared(slots, key);
        slots := slots[pos := Free];
      } else {
        Stored(slots, key, b);
        slots := slots[pos := Used(key, b)];
      }
    }

    /** cmtp_dump: applies the blocks of a frame in order. */
    method Dump(key: Key, frm: seq<byte>)
      requires Valid() && WellFormed(frm)
      modifies this
      ensures Valid()
      ensures AsMap(slots) == After(old(AsMap(slots)), Events(key, frm))
      ensures out == old(out) + Messages(old(AsMap(slots)), Events(key, frm))
    {
      hide Next, Delivered, Locate, Find;
      var rest := frm;
      ghost var m0, whole := AsMap(slots), Events(key, frm);
      while |rest| > 0
        invariant Valid() && WellFormed(rest)
        invariant After(m0, whole) == After(AsMap(slots), Events(key, rest))
        invariant old(out) + Messages(m0, whole) == out + Messages(AsMap(slots), Events(key, rest))
        decreases |rest|
      {
        ghost var before, out0 := AsMap(slots), out;
        EventsStep(key, rest);
        HandleBlock(key, FirstBlock(rest));
        MessagesStep(out0, before, Events(key, rest));
        rest := rest[BlockSize(rest)..];
      }
      assert out + [] == out;
    }

    method HandleBlock(key: Key, b: Block)
      requires Valid() && b.bid < 16
      modifies this
      ensures Valid() && AsMap(slots) == Next(old(AsMap(slots)), key, b)
      ensures out == old(out) + Delivered(old(AsMap(slots)), key, b)
    {
      hide AsMap, Added, Freed, Content, HasRoom, Distinct;
      AddedContent(AsMap(slots), key, b.bid, b.data);
      match b.status {
        case Complete =>
          AddSegment(key, b.bid, b.data);
          var found, msg := GetSegment(key, b.bid);
          if found {
            out := out + [(key, msg)];
            FreeSegment(key, b.bid);
          }
        case Segment =>
          AddSegment(key, b.bid, b.data);
        case Failed =>
          FreeSegment(key, b.bid);
      }
    }
  }

  // ---- what a run delivers ----

  /** The segments of block `bid` on a connection since it last completed or failed, run together. */
  ghost function Pending(h: seq<Event>, key: Key, bid: nat): seq<byte> {
    if h == [] then []
    else
      var e, before := h[|h| - 1], h[..|h| - 1];
      if e.key != key || e.block.bid != bid then Pending(before, key, bid)
      else if e.block.status.Segment? then Pending(before, key, bid) + e.block.data
      else []
  }

  /** A block that ends in an error needs no slot, any other has or gets one. */
  ghost predicate Admits(m: Table, e: Event) {
    e.block.status.Failed? || HasRoom(m, e.key)
  }

  /** No block of the run that needs a slot finds the table full. */
  ghost predicate NeverFull(m: Table, events: seq<Event>)
    requires Proper(events)
    decreases |events|
  {
    events == [] || (Admits(m, events[0]) && NeverFull(Next(m, events[0].key, events[0].block), events[1..]))
  }

  /** A run over at most ten connections never does. */
  lemma {:induction false} FewConnections(m: Table, events: seq<Event>, keys: set<Key>)
    requires Proper(events) && m.Keys <= keys && |keys| <= TABLE_SIZE
    requires forall i :: 0 <= i < |events| ==> events[i].key in keys
    ensures NeverFull(m, events)
    decreases |events|
  {
    if events != [] {
      var e := events[0];
      if e.key !in m {
        SubsetSize(m.Keys + {e.key}, keys);
        assert |m.Keys + {e.key}| == |m| + 1;
      }
      assert Next(m, e.key, e.block).Keys <= m.Keys + {e.key};
      FewConnections(Next(m, e.key, e.block), events[1..], keys);
    }
  }

  /** The table holds exactly the pending segments of a history. */
  ghost predicate Tracks(m: Table, h: seq<Event>) {
    forall key: Key, bid: nat :: bid < 16 ==> Content(m, key, bid) == Pending(h, key, bid)
  }

  lemma NextContent(m: Table, e: Event, key: Key, bid: nat)
    requires e.block.bid < 16 && bid < 16 && Admits(m, e)
    ensures Content(Next(m, e.key, e.block), key, bid)
         == if e.key != key || e.block.bid != bid then Content(m, key, bid)
            else if e.block.status.Segment? then Content(m, key, bid) + e.block.data
            else []
  {
    hide Freed;
    var m' := if e.block.status.Failed? then m else Added(m, e.key, e.block.bid, e.block.data);
    FreedContent(m', e.key, e.block.bid, key, bid);
    assert NO_DATA[bid] == [];
  }

  lemma FreedContent(m: Table, k: Key, b: nat, key: Key, bid: nat)
    requires b < 16 && bid < 16
    ensures Content(Freed(m, k, b), key, bid) == if k == key && b == bid then [] else Content(m, key, bid)
  {
    if k in m {
      var bs := Put(m[k], b, []);
      assert bs == NO_DATA ==> bs[bid] == NO_DATA[bid] == [];
    }
  }

  lemma TracksNext(m: Table, h: seq<Event>, e: Event)
    requires Tracks(m, h) && e.block.bid < 16 && Admits(m, e)
    ensures Tracks(Next(m, e.key, e.block), h + [e])
  {
    hide Next, Content, Admits;
    forall key: Key, bid: nat | bid < 16
      ensures Content(Next(m, e.key, e.block), key, bid) == Pending(h + [e], key, bid)
    {
      NextContent(m, e, key, bid);
      assert (h + [e])[..|h|] == h;
    }
  }

  /** What the run should deliver: for every completing block, everything pending on its block id with its own
      octets behind. */
  ghost function Expected(h: seq<Event>, events: seq<Event>): seq<(Key, seq<byte>)>
    decreases |events|
  {
    if events == [] then []
    else
      var e := events[0];
      (if e.block.status.Complete? then [(e.key, Pending(h, e.key, e.block.bid) + e.block.data)] else [])
      + Expected(h + [e], events[1..])
  }

  /** Reassembly: over any interleaving of connections and block ids that never finds the table full, each message
      delivered is the concatenation of its own segments since the last completion or error, and the table holds
      exactly what is still pending. */
  lemma {:induction false} Reassembly(m: Table, h: seq<Event>, events: seq<Event>)
    requires Proper(events) && Tracks(m, h) && NeverFull(m, events)
    ensures Messages(m, events) == Expected(h, events)
    ensures Tracks(After(m, events), h + events)
    decreases |events|
  {
    hide Next, Content, Pending, Tracks, Admits;
    if events == [] {
      assert h + events == h;
    } else {
      var e := events[0];
      TracksNext(m, h, e);
      DeliveredIsExpected(m, h, e);
      Reassembly(Next(m, e.key, e.block), h + [e], events[1..]);
      assert h + [e] + events[1..] == h + events;
    }
  }

  lemma DeliveredIsExpected(m: Table, h: seq<Event>, e: Event)
    requires Tracks(m, h) && e.block.bid < 16 && Admits(m, e)
    ensures Delivered(m, e.key, e.block)
         == if e.block.status.Complete? then [(e.key, Pending(h, e.key, e.block.bid) + e.block.data)] else []
  {
  }

  /** An empty table tracks the empty history. */
  lemma TracksInitially()
    ensures Tracks(map[], [])
  {
  }

  /** From an empty table, over at most ten connections, everything is delivered as it should be. */
  lemma TenConnections(events: seq<Event>, keys: set<Key>)
    requires Proper(events) && |keys| <= TABLE_SIZE && forall i :: 0 <= i < |events| ==> events[i].key in keys
    ensures Messages(map[], events) == Expected([], events)
  {
    hide Tracks, Messages, Expected, NeverFull;
    TracksInitially();
    FewConnections(map[], events, keys);
    Reassembly(map[], [], events);
  }

  /** With ten connections in the table whatever comes on an eleventh is dropped; with fewer its segment is kept. */
  lemma EleventhDropped(m: Table, key: Key, b: Block)
    requires b.bid < 16 && key !in m
    ensures |m| == 10 ==> Next(m, key, b) == m && Delivered(m, key, b) == []
    ensures |m| < 10 && b.status.Segment? ==> key in Next(m, key, b) && Next(m, key, b)[key][b.bid] == b.data
  {
    AddedContent(m, key, b.bid, b.data);
    assert [] + b.data == b.data;
  }

  /** Freeing a block releases its connection's slot exactly when every other buffer of the connection is empty. */
  lemma ReleasedWhenEmpty(m: Table, key: Key, bid: nat)
    requires bid < 16 && key in m
    ensures key !in Freed(m, key, bid) <==> forall b: nat :: b < 16 && b != bid ==> Content(m, key, b) == []
  {
    var bs := Put(m[key], bid, []);
    if forall b: nat :: b < 16 && b != bid ==> Content(m, key, b) == [] {
      forall b: nat | b < 16
        ensures bs[b] == NO_DATA[b]
      {
        assert b != bid ==> Content(m, key, b) == [];
      }
      assert bs == NO_DATA;
    } else {
      var b: nat :| b < 16 && b != bid && Content(m, key, b) != [];
      assert bs[b] != NO_DATA[b];
    }
  }
}

/** L2CAP recombination: PDUs put together from ACL fragments, one partial PDU per connection handle
    (section 7.2 of volume 3, part A of the Bluetooth Core Specification). */
module L2cap {
  import opened Bytes
  import opened SlotTable

  const HANDLE_TABLE_SIZE := 10
  const HDR_SIZE := 4

  /** What a handle's entry holds: no data, or the octets so far, including any that went past the buffer, of a PDU of
      `total` octets. */
  datatype Partial = Nothing | Partial(total: nat, data: seq<byte>)

  /** An ACL fragment; `start` is the ACL_START flag. */
  datatype Event = Event(handle: nat, start: bool, pkt: seq<byte>)

  /** Size of the PDU that a start fragment announces: the length field comes first, low octet first. */
  function Announced(pkt: seq<byte>): nat
    requires |pkt| >= 2
  {
    FromBE([pkt[1], pkt[0]]) + HDR_SIZE
  }

  /** A start fragment carries at least its length field; the dumper relies on this and does not check it. */
  predicate Proper(e: Event) {
    e.start ==> |e.pkt| >= 2
  }

  /** A start fragment longer than the PDU it starts: the dumper copies it past the end of the PDU's buffer. */
  predicate Oversized(e: Event)
    requires Proper(e)
  {
    e.start && |e.pkt| > Announced(e.pkt)
  }

  predicate WholePdu(e: Event)
    requires Proper(e)
  {
    e.start && |e.pkt| == Announced(e.pkt)
  }

  /** The length field in the first two octets, low one first, counts what follows the four octets of header. */
  lemma AnnouncedIs(pkt: seq<byte>)
    requires |pkt| >= 2
    ensures var lo: nat, hi: nat := pkt[0], pkt[1]; Announced(pkt) == lo + 256 * hi + 4
  {
    assert [pkt[1], pkt[0]][..1] == [pkt[1]];
    FromBEOne(pkt[1]);
  }

  // ---- one handle ----

  /** The entry after a fragment. A PDU that arrives whole leaves the entry alone. The room left is an unsigned
      difference, so once an entry has gone past its buffer every continuation seems to fit. */
  function Step(p: Partial, e: Event): Partial
    requires Proper(e)
  {
    if e.start then (if WholePdu(e) then p else Partial(Announced(e.pkt), e.pkt))
    else if p.Nothing? || |p.data| <= p.total <= |p.data| + |e.pkt| then Nothing
    else Partial(p.total, p.data + e.pkt)
  }

  /** The PDU a fragment completes, if any. */
  function Completed(p: Partial, e: Event): seq<seq<byte>>
    requires Proper(e)
  {
    if e.start then (if WholePdu(e) then [e.pkt] else [])
    else if p.Partial? && |p.data| + |e.pkt| == p.total then [p.data + e.pkt]
    else []
  }

  // ---- the table ----

  type Table = map<nat, Partial>

  function Entry(m: Table, handle: nat): Partial {
    if handle in m then m[handle] else Nothing
  }

  predicate HasRoom(m: Table, handle: nat) {
    handle in m || |m| < HANDLE_TABLE_SIZE
  }

  function Next(m: Table, e: Event): Table
    requires Proper(e)
  {
    if WholePdu(e) || !HasRoom(m, e.handle) then m else m[e.handle := Step(Entry(m, e.handle), e)]
  }

  function Delivered(m: Table, e: Event): seq<(nat, seq<byte>)>
    requires Proper(e)
  {
    if WholePdu(e) then [(e.handle, e.pkt)]
    else if !HasRoom(m, e.handle) || Completed(Entry(m, e.handle), e) == [] then []
    else [(e.handle, Completed(Entry(m, e.handle), e)[0])]
  }

  class Recombiner {
    var slots: seq<Slot<nat, Partial>>
    var out: seq<(nat, seq<byte>)>

    ghost predicate Valid()
      reads this
    {
      |slots| == HANDLE_TABLE_SIZE && Distinct(slots)
    }

    constructor ()
      ensures Valid() && AsMap(slots) == map[] && out == []
    {
      slots := seq(HANDLE_TABLE_SIZE, _ => Free);
      out := [];
    }

    /** get_frame: the entry of a handle, made if there is none and there is room. */
    method GetFrame(handle: nat) returns (pos: int)
      requires Valid()
      modifies this`slots
      ensures Valid() && -1 <= pos < |slots| && (pos >= 0 <==> HasRoom(old(AsMap(slots)), handle))
      ensures pos < 0 ==> slots == old(slots)
      ensures pos >= 0 ==>
                && slots[pos] == Used(handle, Entry(old(AsMap(slots)), handle))
                && AsMap(slots) == old(AsMap(slots))[handle := Entry(old(AsMap(slots)), handle)]
    {
      KeysFind(slots, handle);
      FullIff(slots);
      pos := Find(slots, handle);
      if pos >= 0 {
        return;
      }
      pos := FirstFree(slots);
      if pos >= 0 {
        Stored(slots, handle, Nothing);
        slots := slots[pos := Used(handle, Nothing)];
      }
    }

    method Store(pos: nat, p: Partial)
      requires Valid() && pos < |slots| && slots[pos].Used?
      modifies this`slots
      ensures Valid() && AsMap(slots) == old(AsMap(slots)[slots[pos].key := p])
    {
      FindIs(slots, pos);
      Stored(slots, slots[pos].key, p);
      slots := slots[pos := Used(slots[pos].key, p)];
    }

    /** l2cap_dump. */
    method Dump(e: Event)
      requires Valid() && Proper(e)
      modifies this
      ensures Valid() && AsMap(slots) == Next(old(AsMap(slots)), e)
      ensures out == old(out) + Delivered(old(AsMap(slots)), e)
    {
      hide AsMap, Distinct;
      if e.start {
        if |e.pkt| == Announced(e.pkt) {
          out := out + [(e.handle, e.pkt)];
          return;
        }
        var pos := GetFrame(e.handle);
        if pos >= 0 {
          Store(pos, Partial(Announced(e.pkt), e.pkt));
        }
        return;
      }
      var pos := GetFrame(e.handle);
      if pos < 0 || slots[pos].val.Nothing? {
        return;
      }
      var p := slots[pos].val;
      if |p.data| <= p.total && |e.pkt| > p.total - |p.data| {
        Store(pos, Nothing);
        return;
      }
      var data := p.data + e.pkt;
      if |data| == p.total {
        out := out + [(e.handle, data)];
        Store(pos, Nothing);
      } else {
        Store(pos, Partial(p.total, data));
      }
    }
  }

  /** What a fragment does when its handle has or gets an entry: a whole PDU is delivered and the entry left alone; any
      other start replaces what was unfinished; a continuation without a start, or one that is too long for what is
      missing, delivers nothing and leaves nothing; one that is just long enough delivers the PDU. */
  lemma FragmentIs(m: Table, e: Event)
    requires Proper(e) && HasRoom(m, e.handle)
    ensures var p, h := Entry(m, e.handle), e.handle;
            if e.start && |e.pkt| == Announced(e.pkt) then Next(m, e) == m && Delivered(m, e) == [(h, e.pkt)]
            else if e.start then Next(m, e) == m[h := Partial(Announced(e.pkt), e.pkt)] && Delivered(m, e) == []
            else if p == Nothing || (|p.data| <= p.total && |e.pkt| > p.total - |p.data|)
            then Next(m, e) == m[h := Nothing] && Delivered(m, e) == []
            else if |e.pkt| == p.total - |p.data| then Next(m, e) == m[h := Nothing] && Delivered(m, e) == [(h, p.data + e.pkt)]
            else Next(m, e) == m[h := Partial(p.total, p.data + e.pkt)] && Delivered(m, e) == []
  {
  }

  /** With ten handles in the table a fragment of an eleventh is dropped, unless it is a whole PDU; with fewer a start
      fragment is kept. */
  lemma EleventhDropped(m: Table, e: Event)
    requires Proper(e) && e.handle !in m && !WholePdu(e)
    ensures |m| == 10 ==> Next(m, e) == m && Delivered(m, e) == []
    ensures |m| < 10 && e.start ==> Next(m, e) == m[e.handle := Partial(Announced(e.pkt), e.pkt)]
  {
  }

  // ---- runs ----

  ghost predicate AllProper(events: seq<Event>) {
    forall i :: 0 <= i < |events| ==> Proper(events[i])
  }

  ghost function After(m: Table, events: seq<Event>): Table
    requires AllProper(events)
    decreases |events|
  {
    if events == [] then m else After(Next(m, events[0]), events[1..])
  }

  /** The PDUs delivered on one handle in a run over any interleaving of handles. */
  ghost function DeliveredOn(m: Table, events: seq<Event>, handle: nat): seq<seq<byte>>
    requires AllProper(events)
    decreases |events|
  {
    if events == [] then []
    else On(Delivered(m, events[0]), handle) + DeliveredOn(Next(m, events[0]), events[1..], handle)
  }

  ghost function On(out: seq<(nat, seq<byte>)>, handle: nat): seq<seq<byte>> {
    if out == [] then [] else (if out[0].0 == handle then [out[0].1] else []) + On(out[1..], handle)
  }

  /** No fragment that needs an entry finds the table full. */
  ghost predicate NeverFull(m: Table, events: seq<Event>)
    requires AllProper(events)
    decreases |events|
  {
    events == [] || ((WholePdu(events[0]) || HasRoom(m, events[0].handle)) && NeverFull(Next(m, events[0]), events[1..]))
  }

  /** A run over at most ten handles never does. */
  lemma {:induction false} FewHandles(m: Table, events: seq<Event>, handles: set<nat>)
    requires AllProper(events) && m.Keys <= handles && |handles| <= HANDLE_TABLE_SIZE
    requires forall i :: 0 <= i < |events| ==> events[i].handle in handles
    ensures NeverFull(m, events)
    decreases |events|
  {
    if events != [] {
      var e := events[0];
      if e.handle !in m {
        SubsetSize(m.Keys + {e.handle}, handles);
        assert |m.Keys + {e.handle}| == |m| + 1;
      }
      assert Next(m, e).Keys <= m.Keys + {e.handle};
      FewHandles(Next(m, e), events[1..], handles);
    }
  }

  /** The fragments of one handle. */
  ghost function Fragments(events: seq<Event>, handle: nat): seq<Event> {
    if events == [] then []
    else (if events[0].handle == handle then [events[0]] else []) + Fragments(events[1..], handle)
  }

  /** The PDUs one handle completes by itself. */
  ghost function Local(p: Partial, events: seq<Event>): seq<seq<byte>>
    requires AllProper(events)
    decreases |events|
  {
    if events == [] then [] else Completed(p, events[0]) + Local(Step(p, events[0]), events[1..])
  }

  lemma {:induction false} FragmentsProper(events: seq<Event>, handle: nat)
    requires AllProper(events)
    ensures AllProper(Fragments(events, handle))
  {
    if events != [] {
      FragmentsProper(events[1..], handle);
    }
  }

  lemma OneEvent(m: Table, e: Event, handle: nat)
    requires Proper(e) && (WholePdu(e) || HasRoom(m, e.handle))
    ensures On(Delivered(m, e), handle) == if e.handle == handle then Completed(Entry(m, handle), e) else []
    ensures Entry(Next(m, e), handle) == if e.handle == handle then Step(Entry(m, handle), e) else Entry(m, handle)
  {
    var d := Delivered(m, e);
    if d != [] {
      assert d[1..] == [] && On([], handle) == [];
    }
  }

  /** Interleaving: while the table is never full, a handle delivers exactly what its own fragments, taken alone,
      complete. */
  lemma {:induction false} HandlesAreIndependent(m: Table, events: seq<Event>, handle: nat)
    requires AllProper(events) && NeverFull(m, events)
    ensures AllProper(Fragments(events, handle))
    ensures DeliveredOn(m, events, handle) == Local(Entry(m, handle), Fragments(events, handle))
    decreases |events|
  {
    hide Next, Delivered, Step, Completed, Entry;
    FragmentsProper(events, handle);
    if events != [] {
      var e, rest := events[0], events[1..];
      OneEvent(m, e, handle);
      HandlesAreIndependent(Next(m, e), rest, handle);
      if e.handle == handle {
        assert Fragments(events, handle)[1..] == Fragments(rest, handle);
      } else {
        assert Fragments(events, handle) == Fragments(rest, handle);
      }
    }
  }

  // ---- fragmented PDUs ----

  /** A PDU: its length field counts what follows the header. */
  predicate Pdu(s: seq<byte>) {
    |s| >= HDR_SIZE && Announced(s) == |s|
  }

  function Concat(fs: seq<seq<byte>>): seq<byte> {
    if fs == [] then [] else fs[0] + Concat(fs[1..])
  }

  /** The fragments of one PDU: the first has the length field, any other may be empty. */
  ghost predicate CutOf(fs: seq<seq<byte>>, pdu: seq<byte>) {
    fs != [] && |fs[0]| >= 2 && Concat(fs) == pdu
  }

  /** The same as ACL fragments on a handle. */
  function Train(handle: nat, fs: seq<seq<byte>>, first: bool): seq<Event> {
    if fs == [] then [] else [Event(handle, first, fs[0])] + Train(handle, fs[1..], false)
  }

  lemma {:induction false} ContinuationProper(handle: nat, fs: seq<seq<byte>>)
    ensures AllProper(Train(handle, fs, false))
  {
    if fs != [] {
      ContinuationProper(handle, fs[1..]);
    }
  }

  /** Empty fragments are ignored when no PDU is unfinished. */
  lemma {:induction false} EmptyIgnored(handle: nat, fs: seq<seq<byte>>, more: seq<Event>)
    requires Concat(fs) == [] && AllProper(more)
    ensures AllProper(Train(handle, fs, false) + more)
    ensures Local(Nothing, Train(handle, fs, false) + more) == Local(Nothing, more)
    decreases |fs|
  {
    hide FromBE, Local, AllProper;
    if fs == [] {
      assert Train(handle, fs, false) + more == more;
    } else {
      hide Train;
      ContinuationProper(handle, fs);
      TrainHead(handle, fs, false, more);
      EmptyIgnored(handle, fs[1..], more);
      LocalStep(Nothing, Event(handle, false, fs[0]), Train(handle, fs, false) + more);
    }
  }

  /** The fragments after the first complete the PDU with the last one that is not empty, not before. */
  lemma {:induction false} ContinuationCompletes(handle: nat, data: seq<byte>, fs: seq<seq<byte>>, more: seq<Event>)
    requires Concat(fs) != [] && AllProper(more)
    ensures AllProper(Train(handle, fs, false) + more)
    ensures Local(Partial(|data| + |Concat(fs)|, data), Train(handle, fs, false) + more)
         == [data + Concat(fs)] + Local(Nothing, more)
    decreases |fs|
  {
    hide FromBE, Local, Train, AllProper;
    var p, e := Partial(|data| + |Concat(fs)|, data), Event(handle, false, fs[0]);
    ContinuationProper(handle, fs);
    TrainHead(handle, fs, false, more);
    if Concat(fs[1..]) == [] {
      assert fs[0] + [] == fs[0];
      EmptyIgnored(handle, fs[1..], more);
    } else {
      ContinuationCompletes(handle, data + fs[0], fs[1..], more);
      assert data + fs[0] + Concat(fs[1..]) == data + Concat(fs);
    }
    LocalStep(p, e, Train(handle, fs, false) + more);
  }

  lemma TrainHead(handle: nat, fs: seq<seq<byte>>, first: bool, more: seq<Event>)
    requires fs != []
    ensures var events := Train(handle, fs, first) + more;
            && events != [] && events[0] == Event(handle, first, fs[0])
            && events[1..] == Train(handle, fs[1..], false) + more && (|fs| == 1 ==> events[1..] == more)
    ensures AllProper(Train(handle, fs, first)) && AllProper(more) ==> AllProper(Train(handle, fs, first) + more)
  {
    hide Proper, AllProper;
    Tail(Event(handle, first, fs[0]), Train(handle, fs[1..], false), more);
    assert |fs| == 1 ==> fs[1..] == [];
    if AllProper(Train(handle, fs, first)) && AllProper(more) {
      ProperConcat(Train(handle, fs, first), more);
    }
  }

  lemma Tail(e: Event, a: seq<Event>, b: seq<Event>)
    ensures ([e] + a + b)[0] == e && ([e] + a + b)[1..] == a + b && [] + b == b
  {
  }

  lemma ProperConcat(a: seq<Event>, b: seq<Event>)
    requires AllProper(a) && AllProper(b)
    ensures AllProper(a + b)
  {
    hide Proper;
  }

  lemma LocalStep(p: Partial, e: Event, events: seq<Event>)
    requires AllProper(events) && events != [] && events[0] == e
    ensures AllProper(events[1..]) && Local(p, events) == Completed(p, e) + Local(Step(p, e), events[1..])
    ensures Completed(p, e) == [] ==> Local(p, events) == Local(Step(p, e), events[1..])
  {
    hide Step, Completed, Proper;
  }

  /** A PDU cut in any way, empty fragments included, is recombined once. An unfinished PDU before it does not matter,
      unless the new one comes whole: that leaves the unfinished one in place. */
  lemma PduRecombined(p: Partial, handle: nat, fs: seq<seq<byte>>, pdu: seq<byte>, more: seq<Event>)
    requires Pdu(pdu) && CutOf(fs, pdu) && AllProper(more) && (fs[0] == pdu ==> p.Nothing?)
    ensures AllProper(Train(handle, fs, true) + more)
    ensures Local(p, Train(handle, fs, true) + more) == [pdu] + Local(Nothing, more)
  {
    hide FromBE, Local, Train, AllProper;
    var rest, e := fs[1..], Event(handle, true, fs[0]);
    assert pdu[0] == fs[0][0] && pdu[1] == fs[0][1];
    assert Announced(fs[0]) == |pdu|;
    StartProper(handle, fs);
    TrainHead(handle, fs, true, more);
    if Concat(rest) == [] {
      assert fs[0] + [] == fs[0];
      EmptyIgnored(handle, rest, more);
    } else {
      ContinuationCompletes(handle, fs[0], rest, more);
    }
    LocalStep(p, e, Train(handle, fs, true) + more);
  }

  lemma StartProper(handle: nat, fs: seq<seq<byte>>)
    requires fs != [] && Proper(Event(handle, true, fs[0]))
    ensures AllProper(Train(handle, fs, true))
  {
    hide Proper;
    ContinuationProper(handle, fs[1..]);
  }

  /** PDUs of one handle, each cut in its own way, one after the other. */
  function Trains(handle: nat, cuts: seq<seq<seq<byte>>>): seq<Event> {
    if cuts == [] then [] else Train(handle, cuts[0], true) + Trains(handle, cuts[1..])
  }

  lemma {:induction false} PdusRecombined(handle: nat, cuts: seq<seq<seq<byte>>>, pdus: seq<seq<byte>>)
    requires |cuts| == |pdus| && forall i :: 0 <= i < |pdus| ==> Pdu(pdus[i]) && CutOf(cuts[i], pdus[i])
    ensures AllProper(Trains(handle, cuts)) && Local(Nothing, Trains(handle, cuts)) == pdus
  {
    if cuts != [] {
      PdusRecombined(handle, cuts[1..], pdus[1..]);
      PduRecombined(Nothing, handle, cuts[0], pdus[0], Trains(handle, cuts[1..]));
      assert pdus == [pdus[0]] + pdus[1..];
    }
  }

  /** Recombination: in any interleaving over handles that never finds the table full, a handle on which PDUs are
      sent one after the other, each cut in any way, delivers exactly those PDUs, in order. */
  lemma Recombination(m: Table, events: seq<Event>, handle: nat, cuts: seq<seq<seq<byte>>>, pdus: seq<seq<byte>>)
    requires AllProper(events) && NeverFull(m, events) && Entry(m, handle).Nothing?
    requires |cuts| == |pdus| && forall i :: 0 <= i < |pdus| ==> Pdu(pdus[i]) && CutOf(cuts[i], pdus[i])
    requires Fragments(events, handle) == Trains(handle, cuts)
    ensures DeliveredOn(m, events, handle) == pdus
  {
    HandlesAreIndependent(m, events, handle);
    PdusRecombined(handle, cuts, pdus);
  }

  /** Every entry holds fewer octets than its PDU announces. */
  ghost predicate Bounded(m: Table) {
    forall h :: h in m && m[h].Partial? ==> |m[h].data| < m[h].total
  }

  /** In every state the run goes through the entries stay within their buffers. */
  ghost predicate StaysBounded(m: Table, events: seq<Event>)
    requires AllProper(events)
    decreases |events|
  {
    Bounded(m) && (events == [] || StaysBounded(Next(m, events[0]), events[1..]))
  }

  /** Every start fragment longer than its PDU finds the table full. */
  ghost predicate OversizedDropped(m: Table, events: seq<Event>)
    requires AllProper(events)
    decreases |events|
  {
    || events == []
    || ((Oversized(events[0]) ==> !HasRoom(m, events[0].handle)) && OversizedDropped(Next(m, events[0]), events[1..]))
  }

  /** One fragment keeps the buffers within bounds, unless it starts a PDU shorter than itself and gets an entry. */
  lemma BoundedNextIff(m: Table, e: Event)
    requires Proper(e) && Bounded(m)
    ensures Bounded(Next(m, e)) <==> (Oversized(e) ==> !HasRoom(m, e.handle))
  {
    var m' := Next(m, e);
    if Oversized(e) && HasRoom(m, e.handle) {
      assert e.handle in m' && m'[e.handle] == Partial(Announced(e.pkt), e.pkt);
    }
  }

  /** Bounded buffering, exactly: over any run of readable fragments the octets buffered stay below the announced size
      throughout if and only if no start fragment longer than its PDU is given an entry; while the table is never
      full, if and only if there is no such fragment. */
  lemma {:induction false} AlwaysBoundedIff(m: Table, events: seq<Event>)
    requires AllProper(events) && Bounded(m)
    ensures StaysBounded(m, events) <==> OversizedDropped(m, events)
    ensures NeverFull(m, events) ==>
              (StaysBounded(m, events) <==> forall i :: 0 <= i < |events| ==> !Oversized(events[i]))
    decreases |events|
  {
    hide Bounded, Next, Oversized, HasRoom;
    if events != [] {
      var e, rest := events[0], events[1..];
      BoundedNextIff(m, e);
      OversizedNotWhole(e);
      if Bounded(Next(m, e)) {
        AlwaysBoundedIff(Next(m, e), rest);
        RestOversized(events);
      } else {
        NotStaying(Next(m, e), rest);
        assert Oversized(events[0]);
      }
    }
  }

  /** Five octets that start a PDU of four: more is buffered than the PDU announces. */
  lemma LongStartOverflows()
    ensures var e := Event(1, true, [0, 0, 1, 0, 0x61]);
            Proper(e) && !Bounded(Next(map[], e)) && Next(map[], e)[1] == Partial(4, e.pkt)
  {
    var e := Event(1, true, [0, 0, 1, 0, 0x61]);
    assert FromBE([0]) == 256 * FromBE([0][..0]) && [0, 0][..1] == [0];
    assert Announced(e.pkt) == 4;
    BoundedNextIff(map[], e);
  }

  lemma NotStaying(m: Table, events: seq<Event>)
    requires AllProper(events) && !Bounded(m)
    ensures !StaysBounded(m, events)
  {
  }

  lemma OversizedNotWhole(e: Event)
    requires Proper(e)
    ensures Oversized(e) ==> !WholePdu(e)
  {
  }

  lemma RestOversized(events: seq<Event>)
    requires AllProper(events) && events != []
    ensures (forall i :: 0 <= i < |events| ==> !Oversized(events[i]))
       <==> !Oversized(events[0]) && forall i :: 0 <= i < |events[1..]| ==> !Oversized(events[1..][i])
  {
    hide Oversized;
    if !Oversized(events[0]) && forall i :: 0 <= i < |events[1..]| ==> !Oversized(events[1..][i]) {
      forall i | 0 <= i < |events|
        ensures !Oversized(events[i])
      {
        assert i > 0 ==> events[i] == events[1..][i - 1];
      }
    }
  }
}

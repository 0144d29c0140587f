/** AVDTP signalling packets: the fragmenting sender and the reassembling receiver. */
module AvdtpPacket {
  import opened Bytes

  const SINGLE := 0
  const START := 1
  const CONTINUE := 2
  const END := 3

  const IN_BUF_SIZE := 1024

  /** What the header fields of a signalling message carry. */
  datatype Label = Label(transaction: nat, kind: nat, signal: nat)

  predicate Fields(l: Label) {
    l.transaction < 16 && l.kind < 4 && l.signal < 64
  }

  /** First octet of every packet: message type in bits 0-1, packet type in bits 2-3, transaction above. */
  function Common(l: Label, packetType: nat): byte
    requires Fields(l) && packetType < 4
  {
    l.kind + 4 * packetType + 16 * l.transaction
  }

  // ---- sending ----

  /** Fragments after the first that the start packet announces. */
  function ContFragments(mtu: nat, len: nat): nat
    requires 3 <= mtu && mtu - 3 <= len
  {
    (len - (mtu - 3)) / (mtu - 1) + 1
  }

  function Packets(l: Label, mtu: nat, data: seq<byte>): seq<seq<byte>>
    requires Fields(l) && mtu >= 3
  {
    if 2 + |data| <= mtu then [[Common(l, SINGLE), l.signal] + data]
    else [StartPacket(l, mtu, data)] + Tail(l, mtu, data[mtu - 3..])
  }

  function StartPacket(l: Label, mtu: nat, data: seq<byte>): seq<byte>
    requires Fields(l) && mtu >= 3 && mtu - 3 <= |data|
  {
    [Common(l, START), (ContFragments(mtu, |data|) + 1) % 256, l.signal] + data[..mtu - 3]
  }

  function Tail(l: Label, mtu: nat, rest: seq<byte>): seq<seq<byte>>
    requires Fields(l) && mtu >= 3
    decreases |rest|
  {
    if rest == [] then []
    else if |rest| + 1 > mtu then [[Common(l, CONTINUE)] + rest[..mtu - 1]] + Tail(l, mtu, rest[mtu - 1..])
    else [[Common(l, END)] + rest]
  }

  /** avdtp_send over a socket that takes every packet; `sent` is what the socket was given. */
  method Send(l: Label, omtu: nat, data: seq<byte>) returns (sent: seq<seq<byte>>)
    requires Fields(l) && omtu >= 3
    ensures sent == Packets(l, omtu, data)
  {
    if 2 + |data| <= omtu {
      return [[Common(l, SINGLE), l.signal] + data];
    }
    hide Tail, Common;
    var contFragments := (|data| - (omtu - 3)) / (omtu - 1) + 1;
    ghost var whole := Packets(l, omtu, data);
    hide Packets;
    assert whole == [StartPacket(l, omtu, data)] + Tail(l, omtu, data[omtu - 3..]) by {
      SeveralPackets(l, omtu, data);
    }
    sent := [[Common(l, START), (contFragments + 1) % 256, l.signal] + data[..omtu - 3]];
    var done := omtu - 3;
    while done < |data|
      invariant omtu - 3 <= done <= |data|
      invariant whole == sent + Tail(l, omtu, data[done..])
    {
      var left := |data| - done;
      var toCopy, packetType;
      if left + 1 > omtu {
        packetType, toCopy := CONTINUE, omtu - 1;
      } else {
        packetType, toCopy := END, left;
      }
      TailStep(l, omtu, data, done);
      var packet := [Common(l, packetType)] + data[done..done + toCopy];
      Regroup(sent, packet, Tail(l, omtu, data[done + toCopy..]));
      sent := sent + [packet];
      done := done + toCopy;
    }
    NoTail(l, omtu, data);
    assert sent + [] == sent;
  }

  lemma SeveralPackets(l: Label, mtu: nat, data: seq<byte>)
    requires Fields(l) && mtu >= 3 && 2 + |data| > mtu
    ensures Packets(l, mtu, data) == [StartPacket(l, mtu, data)] + Tail(l, mtu, data[mtu - 3..])
  {
    hide Tail, StartPacket;
  }

  lemma NoTail(l: Label, mtu: nat, data: seq<byte>)
    requires Fields(l) && mtu >= 3
    ensures Tail(l, mtu, data[|data|..]) == []
  {
  }

  lemma Regroup(a: seq<seq<byte>>, x: seq<byte>, b: seq<seq<byte>>)
    ensures a + ([x] + b) == a + [x] + b
  {
  }

  lemma TailStep(l: Label, mtu: nat, data: seq<byte>, done: nat)
    requires Fields(l) && mtu >= 3 && done < |data|
    ensures var left := |data| - done;
            Tail(l, mtu, data[done..])
            == if left + 1 > mtu then
                 [[Common(l, CONTINUE)] + data[done..done + (mtu - 1)]] + Tail(l, mtu, data[done + (mtu - 1)..])
               else [[Common(l, END)] + data[done..done + left]] + Tail(l, mtu, data[done + left..])
  {
    var rest := data[done..];
    if |rest| + 1 > mtu {
      assert rest[..mtu - 1] == data[done..done + (mtu - 1)] && rest[mtu - 1..] == data[done + (mtu - 1)..];
    } else {
      assert data[done..done + |rest|] == rest && data[done + |rest|..] == [];
    }
  }

  // ---- receiving ----

  /** struct in_buf. The count of stored octets is a uint8_t. */
  datatype Rx = Rx(active: bool, left: int, tag: Label, buf: seq<byte>, size: byte)

  datatype Parse = Error | Fragment | Success

  /** Copies a payload behind what is stored; the count wraps at 256. */
  function Store(rx: Rx, payload: seq<byte>): (Rx, Parse)
    requires |rx.buf| == IN_BUF_SIZE
  {
    if rx.size + |payload| > IN_BUF_SIZE then (rx, Error)
    else
      var rx' := rx.(buf := rx.buf[..rx.size] + payload + rx.buf[rx.size + |payload|..],
                     size := (rx.size + |payload|) % 256);
      if rx.left > 1 then (rx'.(left := rx.left - 1), Fragment) else (rx'.(active := false), Success)
  }

  /** avdtp_parse_data on a packet of at least one octet. */
  function Receive(rx: Rx, pkt: seq<byte>): (Rx, Parse)
    requires |rx.buf| == IN_BUF_SIZE && |pkt| > 0
  {
    var transaction, packetType, kind := pkt[0] / 16, (pkt[0] / 4) % 4, pkt[0] % 4;
    if packetType == SINGLE then
      if |pkt| < 2 || rx.active then (rx, Error)
      else Store(Rx(true, 1, Label(transaction, kind, pkt[1] % 64), rx.buf, 0), pkt[2..])
    else if packetType == START then
      if |pkt| < 3 || rx.active then (rx, Error)
      else Store(Rx(true, pkt[1], Label(transaction, kind, pkt[2] % 64), rx.buf, 0), pkt[3..])
    else if !rx.active || rx.tag.transaction != transaction then (rx, Error)
    else if packetType == CONTINUE && rx.left <= 1 then (rx, Error)
    else if packetType == END && rx.left > 1 then (rx, Error)
    else Store(rx, pkt[1..])
  }

  class Receiver {
    var active: bool
    var left: int
    var tag: Label
    var buf: array<byte>
    var size: byte

    ghost predicate Valid()
      reads this
    {
      buf.Length == IN_BUF_SIZE
    }

    ghost function State(): Rx
      requires Valid()
      reads this, buf
    {
      Rx(active, left, tag, buf[..], size)
    }

    constructor ()
      ensures Valid() && !active && fresh(buf)
    {
      active, left, tag, size := false, 0, Label(0, 0, 0), 0;
      buf := new byte[IN_BUF_SIZE](_ => 0);
    }

    method ParseData(pkt: seq<byte>) returns (r: Parse)
      requires Valid() && |pkt| > 0
      modifies this, buf
      ensures Valid() && buf == old(buf)
      ensures (State(), r) == Receive(old(State()), pkt)
    {
      var transaction, packetType, kind := pkt[0] / 16, (pkt[0] / 4) % 4, pkt[0] % 4;
      var header: nat := 1;
      if packetType == SINGLE {
        if |pkt| < 2 || active {
          return Error;
        }
        active, size, left, tag, header := true, 0, 1, Label(transaction, kind, pkt[1] % 64), 2;
      } else if packetType == START {
        if |pkt| < 3 || active {
          return Error;
        }
        active, size, left, tag, header := true, 0, pkt[1], Label(transaction, kind, pkt[2] % 64), 3;
      } else if packetType == CONTINUE {
        if !active || tag.transaction != transaction || left <= 1 {
          return Error;
        }
      } else {
        if !active || tag.transaction != transaction || left > 1 {
          return Error;
        }
      }
      r := StorePayload(pkt[header..]);
    }

    method StorePayload(payload: seq<byte>) returns (r: Parse)
      requires Valid()
      modifies this`active, this`left, this`size, buf
      ensures (State(), r) == Store(old(State()), payload)
    {
      if size + |payload| > IN_BUF_SIZE {
        return Error;
      }
      ghost var before, k, n := buf[..], size, size + |payload|;
      forall i | 0 <= i < |payload| {
        buf[size + i] := payload[i];
      }
      assert buf[..][..k] == before[..k] && buf[..][k..n] == payload && buf[..][n..] == before[n..];
      Thirds(buf[..], k, n);
      size := (size + |payload|) % 256;
      if left > 1 {
        left := left - 1;
        return Fragment;
      }
      active := false;
      return Success;
    }
  }

  // ---- any packet in any state ----

  /** The header of the packet suits the state: a message may start when none is active and the header is whole, and goes
      on under its own transaction, with a continue packet while more are to come and an end packet otherwise. */
  ghost predicate Suits(rx: Rx, pkt: seq<byte>)
    requires |pkt| > 0
  {
    match pkt[0] / 4 % 4
    case 0 => !rx.active && |pkt| >= 2
    case 1 => !rx.active && |pkt| >= 3
    case 2 => rx.active && pkt[0] / 16 == rx.tag.transaction && rx.left > 1
    case _ => rx.active && pkt[0] / 16 == rx.tag.transaction && rx.left <= 1
  }

  /** Octets before the payload. */
  function Header(pkt: seq<byte>): nat
    requires |pkt| > 0
  {
    var t := pkt[0] / 4 % 4;
    if t == 0 then 2 else if t == 1 then 3 else 1
  }

  /** Where the payload goes: a new message begins at the front. */
  function Offset(rx: Rx, pkt: seq<byte>): nat
    requires |pkt| > 0
  {
    if pkt[0] / 4 % 4 < 2 then 0 else rx.size
  }

  /** The packets still to come, this one included. */
  function Awaited(rx: Rx, pkt: seq<byte>): int
    requires |pkt| > 0 && Suits(rx, pkt)
  {
    var t := pkt[0] / 4 % 4;
    if t == 0 then 1 else if t == 1 then pkt[1] else rx.left
  }

  function TagOf(rx: Rx, pkt: seq<byte>): Label
    requires |pkt| > 0 && Suits(rx, pkt)
  {
    var t := pkt[0] / 4 % 4;
    if t == 0 then Label(pkt[0] / 16, pkt[0] % 4, pkt[1] % 64)
    else if t == 1 then Label(pkt[0] / 16, pkt[0] % 4, pkt[2] % 64)
    else rx.tag
  }

  /** Refusals, exactly: a packet is taken if and only if its header suits the state and its payload fits what is left of
      the 1024 octets. A header that does not suit leaves the state as it was. */
  lemma ReceivesIff(rx: Rx, pkt: seq<byte>)
    requires |rx.buf| == 1024 && |pkt| > 0
    ensures Receive(rx, pkt).1 != Error <==> Suits(rx, pkt) && Offset(rx, pkt) + |pkt| - Header(pkt) <= 1024
    ensures !Suits(rx, pkt) ==> Receive(rx, pkt) == (rx, Error)
  {
  }

  /** What taking a packet does, octet by octet. */
  lemma ReceivesIs(rx: Rx, pkt: seq<byte>)
    requires |rx.buf| == 1024 && |pkt| > 0 && Suits(rx, pkt) && Offset(rx, pkt) + |pkt| - Header(pkt) <= 1024
    ensures var (rx', r) := Receive(rx, pkt); var h, k := Header(pkt), Offset(rx, pkt);
            && rx'.tag == TagOf(rx, pkt) && rx'.size == (k + |pkt| - h) % 256 && |rx'.buf| == 1024
            && (forall i :: 0 <= i < 1024 ==> rx'.buf[i] == if k <= i < k + |pkt| - h then pkt[i - k + h] else rx.buf[i])
            && if Awaited(rx, pkt) > 1 then r == Fragment && rx'.active && rx'.left == Awaited(rx, pkt) - 1
               else r == Success && !rx'.active
  {
    var h, k := Header(pkt), Offset(rx, pkt);
    StoreIs(Rx(true, Awaited(rx, pkt), TagOf(rx, pkt), rx.buf, k), pkt[h..]);
  }

  lemma StoreIs(rx: Rx, payload: seq<byte>)
    requires |rx.buf| == 1024 && rx.active && rx.size + |payload| <= 1024
    ensures var (rx', r) := Store(rx, payload); var k, n := rx.size, rx.size + |payload|;
            && rx'.tag == rx.tag && rx'.size == n % 256 && |rx'.buf| == 1024
            && (forall i :: 0 <= i < 1024 ==> rx'.buf[i] == if k <= i < n then payload[i - k] else rx.buf[i])
            && if rx.left > 1 then r == Fragment && rx'.active && rx'.left == rx.left - 1
               else r == Success && !rx'.active
  {
  }

  /** A concrete refusal: the end packet of another transaction. */
  lemma ForeignEndRefused(rx: Rx)
    requires |rx.buf| == 1024 && rx.active && rx.tag.transaction == 1
    ensures Receive(rx, [0x2C, 0x61]) == (rx, Error)
  {
    ReceivesIff(rx, [0x2C, 0x61]);
  }

  lemma Thirds(s: seq<byte>, k: nat, n: nat)
    requires k <= n <= |s|
    ensures s == s[..k] + s[k..n] + s[n..]
  {
  }

  // ---- whole messages ----

  /** What the receiver reports for a run of packets; an error ends the connection and the run. */
  function Results(rx: Rx, pkts: seq<seq<byte>>): seq<Parse>
    requires |rx.buf| == IN_BUF_SIZE && forall p :: p in pkts ==> |p| > 0
    decreases |pkts|
  {
    if pkts == [] then []
    else
      var (rx', r) := Receive(rx, pkts[0]);
      if r.Error? then [r] else [r] + Results(rx', pkts[1..])
  }

  /** The receiver's state after the same run. */
  function Final(rx: Rx, pkts: seq<seq<byte>>): (end: Rx)
    requires |rx.buf| == IN_BUF_SIZE && forall p :: p in pkts ==> |p| > 0
    ensures |end.buf| == IN_BUF_SIZE
    decreases |pkts|
  {
    if pkts == [] then rx
    else
      var (rx', r) := Receive(rx, pkts[0]);
      if r.Error? then rx' else Final(rx', pkts[1..])
  }

  /** n fragments, then success. */
  function Completes(n: nat): seq<Parse> {
    if n == 0 then [Success] else [Fragment] + Completes(n - 1)
  }

  lemma {:induction false} PacketsFit(l: Label, mtu: nat, data: seq<byte>)
    requires Fields(l) && mtu >= 3
    ensures forall p :: p in Packets(l, mtu, data) ==> 0 < |p| <= mtu
  {
    if 2 + |data| > mtu {
      TailFits(l, mtu, data[mtu - 3..]);
    }
  }

  lemma {:induction false} TailFits(l: Label, mtu: nat, rest: seq<byte>)
    requires Fields(l) && mtu >= 3
    ensures forall p :: p in Tail(l, mtu, rest) ==> 0 < |p| <= mtu
    decreases |rest|
  {
    if |rest| + 1 > mtu {
      TailFits(l, mtu, rest[mtu - 1..]);
    }
  }

  /** The message comes through: every packet but the last is reported as a fragment, the last as success, and the
      receiver is idle again holding the same label and the same octets. */
  ghost predicate ComesThrough(rx: Rx, l: Label, mtu: nat, data: seq<byte>)
    requires |rx.buf| == IN_BUF_SIZE && Fields(l) && mtu >= 3
  {
    PacketsFit(l, mtu, data);
    var pkts := Packets(l, mtu, data);
    var end := Final(rx, pkts);
    && Results(rx, pkts) == Completes(|pkts| - 1)
    && !end.active && end.tag == l && end.buf[..end.size] == data
  }

  lemma CommonFields(l: Label, packetType: nat)
    requires Fields(l) && packetType < 4
    ensures var c := Common(l, packetType); c / 16 == l.transaction && (c / 4) % 4 == packetType && c % 4 == l.kind
  {
  }

  /** One accepted continuation: the payload goes behind what is stored. */
  lemma TailPacket(rx: Rx, l: Label, packetType: nat, payload: seq<byte>)
    requires |rx.buf| == IN_BUF_SIZE && Fields(l) && rx.active && rx.tag == l && rx.size + |payload| <= 255
    requires (packetType == CONTINUE && rx.left > 1) || (packetType == END && rx.left == 1)
    ensures var (rx', r) := Receive(rx, [Common(l, packetType)] + payload);
            && |rx'.buf| == IN_BUF_SIZE && rx'.tag == l
            && rx'.size == rx.size + |payload| && rx'.buf[..rx'.size] == rx.buf[..rx.size] + payload
            && (if packetType == CONTINUE then r == Fragment && rx'.active && rx'.left == rx.left - 1
                else r == Success && !rx'.active)
  {
    var pkt := [Common(l, packetType)] + payload;
    CommonFields(l, packetType);
    assert pkt[1..] == payload;
    var n := rx.size + |payload|;
    var buf' := rx.buf[..rx.size] + payload + rx.buf[n..];
    assert buf'[..n] == rx.buf[..rx.size] + payload;
  }

  /** With the right count the tail completes the message. */
  lemma {:induction false} TailCompletes(rx: Rx, l: Label, mtu: nat, rest: seq<byte>)
    requires |rx.buf| == IN_BUF_SIZE && Fields(l) && mtu >= 3 && rx.active && rx.tag == l
    requires rest != [] && rx.size + |rest| <= 255 && rx.left == |Tail(l, mtu, rest)|
    requires forall p :: p in Tail(l, mtu, rest) ==> |p| > 0
    ensures Results(rx, Tail(l, mtu, rest)) == Completes(|Tail(l, mtu, rest)| - 1)
    ensures var end := Final(rx, Tail(l, mtu, rest));
            !end.active && end.tag == l && end.buf[..end.size] == rx.buf[..rx.size] + rest
    decreases |rest|
  {
    hide Receive, Common;
    var pkts := Tail(l, mtu, rest);
    if |rest| + 1 > mtu {
      var now, later := rest[..mtu - 1], rest[mtu - 1..];
      TailPacket(rx, l, CONTINUE, now);
      assert pkts[1..] == Tail(l, mtu, later);
      TailCompletes(Receive(rx, pkts[0]).0, l, mtu, later);
      assert rx.buf[..rx.size] + now + later == rx.buf[..rx.size] + rest;
    } else {
      TailPacket(rx, l, END, rest);
      assert pkts[1..] == [];
      assert [Success] + [] == [Success];
    }
  }

  /** With a count that is too high the end packet comes too early. */
  lemma {:induction false} TailFails(rx: Rx, l: Label, mtu: nat, rest: seq<byte>)
    requires |rx.buf| == IN_BUF_SIZE && Fields(l) && mtu >= 3 && rx.active && rx.tag == l
    requires rest != [] && rx.size + |rest| <= 255 && rx.left > |Tail(l, mtu, rest)|
    requires forall p :: p in Tail(l, mtu, rest) ==> |p| > 0
    ensures Error in Results(rx, Tail(l, mtu, rest))
    decreases |rest|
  {
    hide Receive, Common;
    var pkts := Tail(l, mtu, rest);
    if |rest| + 1 > mtu {
      TailPacket(rx, l, CONTINUE, rest[..mtu - 1]);
      assert pkts[1..] == Tail(l, mtu, rest[mtu - 1..]);
      TailFails(Receive(rx, pkts[0]).0, l, mtu, rest[mtu - 1..]);
    } else {
      EarlyEnd(rx, l, rest);
    }
  }

  lemma EarlyEnd(rx: Rx, l: Label, payload: seq<byte>)
    requires |rx.buf| == IN_BUF_SIZE && Fields(l) && rx.left > 1
    ensures Receive(rx, [Common(l, END)] + payload).1 == Error
  {
    CommonFields(l, END);
  }

  lemma {:induction false} CompletesNoError(n: nat)
    ensures Error !in Completes(n)
  {
    if n > 0 {
      CompletesNoError(n - 1);
    }
  }

  /** The number of packets in the tail is its length over MTU - 1, rounded up. */
  lemma {:induction false} TailCount(l: Label, mtu: nat, rest: seq<byte>)
    requires Fields(l) && mtu >= 3 && rest != []
    ensures var n, m := |Tail(l, mtu, rest)|, mtu - 1; n > 0 && (n - 1) * m < |rest| <= n * m
    decreases |rest|
  {
    var n, m := |Tail(l, mtu, rest)|, mtu - 1;
    if |rest| > m {
      TailCount(l, mtu, rest[m..]);
      assert (n - 1) * m == (n - 2) * m + m && n * m == (n - 1) * m + m;
    } else {
      assert n == 1;
    }
  }

  /** The count announced is right exactly when the tail does not fill its packets, and one too high otherwise. */
  lemma AnnouncedCount(n: nat, t: nat, m: nat)
    requires m > 0 && n > 0 && (n - 1) * m < t <= n * m
    ensures t / m + 1 == if t % m == 0 then n + 1 else n
  {
    if t == n * m {
      ModUnique(t, m, n, 0);
    } else {
      assert m * (n - 1) == (n - 1) * m && n * m == (n - 1) * m + m;
      ModUnique(t, m, n - 1, t - (n - 1) * m);
    }
  }

  /** When a message survives: it is at most 255 octets, and it is sent whole or what the start packet leaves over
      is not a multiple of MTU - 1. */
  predicate Deliverable(mtu: nat, len: nat)
    requires mtu >= 3
  {
    len <= 255 && (2 + len <= mtu || (len - (mtu - 3)) % (mtu - 1) != 0)
  }

  lemma SinglePacket(rx: Rx, l: Label, data: seq<byte>)
    requires |rx.buf| == IN_BUF_SIZE && Fields(l) && !rx.active && |data| <= 255
    ensures var (end, r) := Receive(rx, [Common(l, SINGLE), l.signal] + data);
            r == Success && !end.active && end.tag == l && end.buf[..end.size] == data
  {
    var pkt := [Common(l, SINGLE), l.signal] + data;
    CommonFields(l, SINGLE);
    assert pkt[2..] == data;
    assert rx.buf[..0] + data + rx.buf[0 + |data|..] == data + rx.buf[|data|..];
  }

  lemma StartReceived(rx: Rx, l: Label, mtu: nat, data: seq<byte>)
    requires |rx.buf| == IN_BUF_SIZE && Fields(l) && !rx.active && mtu >= 3 && mtu - 2 < |data| <= 255
    ensures var (rx', r) := Receive(rx, StartPacket(l, mtu, data));
            && r == Fragment && rx'.active && rx'.tag == l && rx'.left == ContFragments(mtu, |data|)
            && |rx'.buf| == IN_BUF_SIZE && rx'.size == mtu - 3 && rx'.buf[..rx'.size] == data[..mtu - 3]
  {
    var pkt, first := StartPacket(l, mtu, data), data[..mtu - 3];
    CommonFields(l, START);
    QuotientSmall(|data| - (mtu - 3), mtu - 1);
    assert pkt[3..] == first;
    assert rx.buf[..0] + first + rx.buf[0 + |first|..] == first + rx.buf[|first|..];
  }

  lemma QuotientSmall(t: nat, m: nat)
    requires m >= 2 && t <= 255
    ensures 0 <= t / m <= 253
  {
    var q := t / m;
    DivMod(t, m);
    assert (m - 2) * q >= 0;
    assert m * q == (m - 2) * q + 2 * q;
  }

  /** Fragmentation round trip, exactly: a message handed to the sender comes out of the reassembling receiver
      unchanged if and only if it is deliverable. */
  lemma FragmentationIff(rx: Rx, l: Label, mtu: nat, data: seq<byte>)
    requires |rx.buf| == IN_BUF_SIZE && !rx.active && Fields(l) && mtu >= 3
    ensures ComesThrough(rx, l, mtu, data) <==> Deliverable(mtu, |data|)
  {
    PacketsFit(l, mtu, data);
    var pkts := Packets(l, mtu, data);
    if |data| > 255 {
      assert |Final(rx, pkts).buf[..Final(rx, pkts).size]| < 256;
    } else if 2 + |data| <= mtu {
      SinglePacket(rx, l, data);
      var end := Receive(rx, pkts[0]).0;
      assert pkts[1..] == [] && Results(end, []) == [] && Final(end, []) == end;
      assert Results(rx, pkts) == [Success] + Results(end, pkts[1..]);
      assert Completes(0) == [Success] + [];
    } else {
      FragmentedIff(rx, l, mtu, data);
    }
  }

  lemma FragmentedIff(rx: Rx, l: Label, mtu: nat, data: seq<byte>)
    requires |rx.buf| == IN_BUF_SIZE && !rx.active && Fields(l) && mtu >= 3 && mtu - 2 < |data| <= 255
    ensures ComesThrough(rx, l, mtu, data) <==> (|data| - (mtu - 3)) % (mtu - 1) != 0
  {
    hide Receive, Common, Tail;
    PacketsFit(l, mtu, data);
    var pkts, rest := Packets(l, mtu, data), data[mtu - 3..];
    var rx' := Receive(rx, pkts[0]).0;
    StartReceived(rx, l, mtu, data);
    assert pkts[1..] == Tail(l, mtu, rest);
    TailCount(l, mtu, rest);
    AnnouncedCount(|Tail(l, mtu, rest)|, |rest|, mtu - 1);
    assert forall p :: p in Tail(l, mtu, rest) ==> p in pkts;
    if |rest| % (mtu - 1) != 0 {
      TailCompletes(rx', l, mtu, rest);
      assert data[..mtu - 3] + rest == data;
    } else {
      TailFails(rx', l, mtu, rest);
      CompletesNoError(|pkts| - 1);
    }
  }

  /** A concrete loss: 92 octets over the smallest MTU of a signalling channel, 48, leave a tail of exactly 47. */
  lemma FullTailIsLost(rx: Rx, l: Label, data: seq<byte>)
    requires |rx.buf| == IN_BUF_SIZE && !rx.active && Fields(l) && |data| == 92
    ensures !ComesThrough(rx, l, 48, data)
  {
    hide ComesThrough;
    FragmentationIff(rx, l, 48, data);
  }
}

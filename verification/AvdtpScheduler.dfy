/** AVDTP requests: one command outstanding at a time, a queue for urgent and one for ordinary requests. */
module AvdtpScheduler {
  import opened Options

  const DISCOVER := 0x01
  const GET_CAPABILITIES := 0x02
  const SET_CONFIGURATION := 0x03
  const RECONFIGURE := 0x05
  const OPEN := 0x06
  const START := 0x07
  const CLOSE := 0x08
  const SUSPEND := 0x09
  const ABORT := 0x0A

  /** struct pending_req: `id` tells requests apart. The source makes two kinds of request urgent: the get-capabilities
      requests that the answer to a discover command gives rise to, and the abort that a timeout sends. */
  datatype Req = Req(id: nat, signal: nat, priority: bool)

  /** A command handed to the socket with its transaction label. */
  datatype Sent = Sent(transaction: nat, req: Req)

  datatype Link = Connecting | Connected | Lost

  /** The scheduling part of a session. `transaction` is the static counter of send_req; `sent` records the commands
      put on the wire, `closed` how many of them were answered or given up. */
  datatype State = State(link: Link, req: Option<Sent>, prio: seq<Req>, queue: seq<Req>,
                         transaction: nat, sent: seq<Sent>, closed: nat)

  /** What can happen to a session: a caller submits a request; the channel comes up; a response arrives, which may
      make its handler submit more requests before the response is done with; the response timer expires, which may
      make the confirmation callback of the command submit more before the abort. */
  datatype Event =
    | Submit(r: Req)
    | Connect
    | Reply(transaction: nat, signal: nat, parses: bool, followUps: seq<Req>)
    | Timeout(abort: nat, followUps: seq<Req>)

  function Enqueued(s: State, r: Req): State {
    if r.priority then s.(prio := s.prio + [r]) else s.(queue := s.queue + [r])
  }

  function Transmitted(s: State, r: Req): State {
    var c := Sent(s.transaction, r);
    s.(req := Some(c), transaction := (s.transaction + 1) % 16, sent := s.sent + [c])
  }

  /** send_req on a session that is connecting or connected. */
  function SendReq(s: State, r: Req): State {
    if !s.link.Connected? || s.req.Some? then Enqueued(s, r) else Transmitted(s, r)
  }

  function SendAll(s: State, rs: seq<Req>): State
    decreases |rs|
  {
    if rs == [] then s else SendAll(SendReq(s, rs[0]), rs[1..])
  }

  /** process_queue on a connected session. */
  function ProcessQueue(s: State): State {
    if s.req.Some? then s
    else if s.prio != [] then Transmitted(s.(prio := s.prio[1..]), s.prio[0])
    else if s.queue != [] then Transmitted(s.(queue := s.queue[1..]), s.queue[0])
    else s
  }

  /** A response is taken only if it carries the label and the signal of the outstanding command. */
  predicate Accepts(s: State, transaction: nat, signal: nat) {
    s.link.Connected? && s.req.Some? && s.req.value.transaction == transaction && s.req.value.req.signal == signal
  }

  /** Signals whose timeout gives up the connection instead of sending an abort. */
  predicate Fatal(signal: nat) {
    signal == SET_CONFIGURATION || signal == DISCOVER || signal == GET_CAPABILITIES || signal == ABORT
  }

  /** Signals whose timeout is told to the end point. */
  predicate Confirmed(signal: nat) {
    signal in {RECONFIGURE, OPEN, START, SUSPEND, CLOSE, SET_CONFIGURATION}
  }

  predicate TimesOut(s: State) {
    s.link.Connected? && s.req.Some?
  }

  /** What a timeout submits: what the callback asks for, then the abort. */
  function OnTimeout(s: State, e: Event): seq<Req>
    requires TimesOut(s) && e.Timeout?
  {
    var signal := s.req.value.req.signal;
    (if Confirmed(signal) then e.followUps else []) + (if Fatal(signal) then [] else [Req(e.abort, ABORT, true)])
  }

  function Next(s: State, e: Event): State {
    match e
    case Submit(r) => if s.link.Lost? then s else SendReq(s, r)
    case Connect => if s.link.Connecting? then ProcessQueue(s.(link := Connected)) else s
    case Reply(t, signal, parses, followUps) =>
      if !Accepts(s, t, signal) then s
      else if !parses then s.(link := Lost)
      else
        var s1 := SendAll(s, followUps);
        ProcessQueue(s1.(req := None, closed := s1.closed + 1))
    case Timeout(_, _) =>
      if !TimesOut(s) then s
      else
        var s1 := SendAll(s.(req := None, closed := s.closed + 1), OnTimeout(s, e));
        if Fatal(s.req.value.req.signal) then s1.(link := Lost) else s1
  }

  class Session {
    var link: Link
    var req: Option<Sent>
    var prio: seq<Req>
    var queue: seq<Req>
    var transaction: nat
    var sent: seq<Sent>
    ghost var closed: nat

    ghost function Abstract(): State
      reads this
    {
      State(link, req, prio, queue, transaction, sent, closed)
    }

    constructor (transaction: nat)
      ensures Abstract() == Initial(transaction)
    {
      link, req, prio, queue, sent, closed := Connecting, None, [], [], [], 0;
      this.transaction := transaction;
    }

    method Send(r: Req)
      modifies this
      ensures Abstract() == SendReq(old(Abstract()), r)
    {
      if link != Connected || req.Some? {
        if r.priority {
          prio := prio + [r];
        } else {
          queue := queue + [r];
        }
        return;
      }
      var c := Sent(transaction, r);
      transaction := (transaction + 1) % 16;
      sent := sent + [c];
      req := Some(c);
    }

    method Process()
      requires link == Connected
      modifies this
      ensures Abstract() == ProcessQueue(old(Abstract()))
    {
      if req.Some? {
        return;
      }
      var r;
      if prio != [] {
        r := prio[0];
        prio := prio[1..];
      } else if queue != [] {
        r := queue[0];
        queue := queue[1..];
      } else {
        return;
      }
      Send(r);
    }

    /** What a handler submits, one after the other. */
    method SubmitAll(rs: seq<Req>)
      modifies this
      ensures Abstract() == SendAll(old(Abstract()), rs) && link == old(link)
    {
      var i := 0;
      while i < |rs|
        invariant link == old(link)
        invariant 0 <= i <= |rs| && SendAll(old(Abstract()), rs) == SendAll(Abstract(), rs[i..])
      {
        assert rs[i..][1..] == rs[i + 1..];
        Send(rs[i]);
        i := i + 1;
      }
    }

    /** The response half of session_cb. */
    method HandleReply(t: nat, signal: nat, parses: bool, followUps: seq<Req>)
      modifies this
      ensures Abstract() == Next(old(Abstract()), Reply(t, signal, parses, followUps))
    {
      if link != Connected || req.None? || t != req.value.transaction || signal != req.value.req.signal {
        return;
      }
      if !parses {
        link := Lost;
        return;
      }
      SubmitAll(followUps);
      req, closed := None, closed + 1;
      Process();
    }

    /** request_timeout. */
    method HandleTimeout(abort: nat, followUps: seq<Req>)
      modifies this
      ensures Abstract() == Next(old(Abstract()), Timeout(abort, followUps))
    {
      if link != Connected || req.None? {
        return;
      }
      var signal := req.value.req.signal;
      req, closed := None, closed + 1;
      ghost var s := Abstract();
      var rs := if Confirmed(signal) then followUps else [];
      SubmitAll(rs);
      if Fatal(signal) {
        assert rs + [] == rs;
        link := Lost;
        return;
      }
      SendAllSnoc(s, rs, Req(abort, ABORT, true));
      Send(Req(abort, ABORT, true));
    }

    method HandleConnect()
      modifies this
      ensures Abstract() == Next(old(Abstract()), Connect)
    {
      if link == Connecting {
        link := Connected;
        Process();
      }
    }

    /** Any event; the invariant of the session is kept. */
    method Handle(e: Event, ghost first: nat)
      modifies this
      ensures Abstract() == Next(old(Abstract()), e)
      ensures Inv(old(Abstract()), first) ==> Inv(Abstract(), first)
    {
      hide Next, Inv;
      if Inv(Abstract(), first) {
        InvNext(Abstract(), e, first);
      }
      Dispatch(e);
    }

    method Dispatch(e: Event)
      modifies this
      ensures Abstract() == Next(old(Abstract()), e)
    {
      match e {
        case Submit(r) =>
          if link != Lost {
            Send(r);
          }
        case Connect => HandleConnect();
        case Reply(t, signal, parses, followUps) => HandleReply(t, signal, parses, followUps);
        case Timeout(abort, followUps) => HandleTimeout(abort, followUps);
      }
    }
  }

  lemma {:induction false} SendAllSnoc(s: State, rs: seq<Req>, r: Req)
    ensures SendAll(s, rs + [r]) == SendReq(SendAll(s, rs), r)
    decreases |rs|
  {
    hide SendReq;
    if rs == [] {
      assert SendAll(s, [r]) == SendAll(SendReq(s, r), []);
    } else {
      assert (rs + [r])[1..] == rs[1..] + [r];
      SendAllSnoc(SendReq(s, rs[0]), rs[1..], r);
    }
  }

  function Initial(transaction: nat): State {
    State(Connecting, None, [], [], transaction, [], 0)
  }

  // ---- every run ----

  ghost function After(s: State, events: seq<Event>): State
    decreases |events|
  {
    if events == [] then s else After(Next(s, events[0]), events[1..])
  }

  /** Requests of one class among those submitted, in order. */
  ghost function OfClass(rs: seq<Req>, priority: bool): seq<Req> {
    if rs == [] then [] else (if rs[0].priority == priority then [rs[0]] else []) + OfClass(rs[1..], priority)
  }

  ghost function Requests(sent: seq<Sent>): seq<Req> {
    if sent == [] then [] else [sent[0].req] + Requests(sent[1..])
  }

  /** The part of a class that has been put on the wire, followed by the part still queued. */
  ghost function Ledger(s: State, priority: bool): seq<Req> {
    OfClass(Requests(s.sent), priority) + Queue(s, priority)
  }

  function Queue(s: State, priority: bool): seq<Req> {
    if priority then s.prio else s.queue
  }

  /** What holds in every reachable state. Every command ever sent but at most one is closed; that one is
      outstanding; it is the last one sent; an idle connected session has nothing queued; labels count modulo 16. */
  ghost predicate Inv(s: State, first: nat) {
    && (s.req.Some? ==> s.sent != [] && s.req.value == s.sent[|s.sent| - 1])
    && |s.sent| == s.closed + (if s.req.Some? then 1 else 0)
    && (s.link.Connecting? ==> s.req.None?)
    && (s.link.Connected? && s.req.None? ==> s.prio == [] && s.queue == [])
    && (forall r :: r in s.prio ==> r.priority) && (forall r :: r in s.queue ==> !r.priority)
    && s.transaction == (first + |s.sent|) % 16
    && (forall i :: 0 <= i < |s.sent| ==> s.sent[i].transaction == (first + i) % 16)
  }

  /** Inv while a response is being handled: what its handler submits is queued. */
  lemma {:induction false} SendAllQueues(s: State, rs: seq<Req>, first: nat)
    requires Inv(s, first) && s.req.Some?
    ensures var s' := SendAll(s, rs);
            && Inv(s', first) && s'.req == s.req && s'.link == s.link && s'.sent == s.sent
            && s'.transaction == s.transaction && s'.closed == s.closed
    ensures SendAll(s, rs).prio == s.prio + OfClass(rs, true) && SendAll(s, rs).queue == s.queue + OfClass(rs, false)
    decreases |rs|
  {
    if rs == [] {
      assert s.prio + [] == s.prio && s.queue + [] == s.queue;
    } else {
      SendAllQueues(SendReq(s, rs[0]), rs[1..], first);
      Assoc(s.prio, [rs[0]], OfClass(rs[1..], true));
      Assoc(s.queue, [rs[0]], OfClass(rs[1..], false));
    }
  }

  /** The next label after one more command. */
  lemma LabelStep(first: nat, n: nat)
    ensures ((first + n) % 16 + 1) % 16 == (first + n + 1) % 16
  {
  }

  lemma TransmittedInv(s: State, r: Req, first: nat)
    requires Inv(s.(link := Lost), first) && s.req.None?
    requires (forall x :: x in s.prio ==> x.priority) && (forall x :: x in s.queue ==> !x.priority)
    requires s.link.Connected?
    ensures Inv(Transmitted(s, r), first)
  {
    LabelStep(first, |s.sent|);
  }

  lemma ProcessQueueInv(s: State, first: nat)
    requires Inv(s.(link := Lost), first) && s.req.None? && s.link.Connected?
    ensures Inv(ProcessQueue(s), first)
  {
    hide Transmitted;
    if s.prio != [] {
      TransmittedInv(s.(prio := s.prio[1..]), s.prio[0], first);
    } else if s.queue != [] {
      TransmittedInv(s.(queue := s.queue[1..]), s.queue[0], first);
    }
  }

  /** Every event keeps the invariant. */
  lemma InvNext(s: State, e: Event, first: nat)
    requires Inv(s, first)
    ensures Inv(Next(s, e), first)
  {
    hide Transmitted, ProcessQueue, SendAll;
    match e {
      case Submit(r) =>
        if s.link.Connected? && s.req.None? {
          TransmittedInv(s, r, first);
        }
      case Connect =>
        if s.link.Connecting? {
          ProcessQueueInv(s.(link := Connected), first);
        }
      case Reply(t, signal, parses, followUps) =>
        if Accepts(s, t, signal) && parses {
          SendAllQueues(s, followUps, first);
          var s1 := SendAll(s, followUps);
          ProcessQueueInv(s1.(req := None, closed := s1.closed + 1), first);
        }
      case Timeout(_, _) =>
        if TimesOut(s) {
          TimeoutInv(s, OnTimeout(s, e), first);
          LostInv(SendAll(s.(req := None, closed := s.closed + 1), OnTimeout(s, e)), first);
        }
    }
  }

  lemma LostInv(s: State, first: nat)
    requires Inv(s.(link := Lost), first)
    ensures s.link.Connected? && s.req.Some? ==> Inv(s, first)
  {
  }

  /** What a timeout submits: the first request goes out at once, whatever is queued, the others are queued. */
  lemma TimeoutInv(s: State, rs: seq<Req>, first: nat)
    requires Inv(s, first) && TimesOut(s)
    ensures var s' := SendAll(s.(req := None, closed := s.closed + 1), rs);
            && Inv(s'.(link := Lost), first) && s'.link == Connected && (s'.req.Some? <==> rs != [])
            && s'.closed == s.closed + 1
            && s'.sent == (if rs == [] then s.sent else s.sent + [Sent(s.transaction, rs[0])])
            && s'.prio == s.prio + (if rs == [] then [] else OfClass(rs[1..], true))
            && s'.queue == s.queue + if rs == [] then [] else OfClass(rs[1..], false)
  {
    hide OfClass, Inv;
    var s0 := s.(req := None, closed := s.closed + 1);
    Assoc(s.prio, [], []);
    Assoc(s.queue, [], []);
    GivenUpInv(s, first);
    if rs != [] {
      var s1 := Transmitted(s0, rs[0]);
      TransmittedInv(s0, rs[0], first);
      SendAllQueues(s1, rs[1..], first);
      DropInv(SendAll(s1, rs[1..]), first);
    }
  }

  lemma GivenUpInv(s: State, first: nat)
    requires Inv(s, first) && TimesOut(s)
    ensures Inv(s.(req := None, closed := s.closed + 1, link := Lost), first)
    ensures (forall x :: x in s.prio ==> x.priority) && (forall x :: x in s.queue ==> !x.priority)
  {
  }

  lemma DropInv(s: State, first: nat)
    requires Inv(s, first)
    ensures Inv(s.(link := Lost), first)
  {
  }

  /** What an event submits. */
  ghost function Submitted(s: State, e: Event): seq<Req> {
    match e
    case Submit(r) => if s.link.Lost? then [] else [r]
    case Reply(t, signal, parses, followUps) => if Accepts(s, t, signal) && parses then followUps else []
    case Timeout(_, _) => if TimesOut(s) then OnTimeout(s, e) else []
    case Connect => []
  }

  /** A timeout sends a request of this class past others of the class that are waiting. */
  ghost predicate Jumps(s: State, e: Event, priority: bool) {
    && e.Timeout? && Submitted(s, e) != [] && Submitted(s, e)[0].priority == priority
    && Queue(s, priority) != []
  }

  lemma {:induction false} RequestsSnoc(sent: seq<Sent>, c: Sent)
    ensures Requests(sent + [c]) == Requests(sent) + [c.req]
  {
    if sent == [] {
      assert Requests([c]) == [c.req] + Requests([]);
    } else {
      assert (sent + [c])[1..] == sent[1..] + [c];
      RequestsSnoc(sent[1..], c);
    }
  }

  lemma {:induction false} OfClassConcat(a: seq<Req>, b: seq<Req>, priority: bool)
    ensures OfClass(a + b, priority) == OfClass(a, priority) + OfClass(b, priority)
  {
    if a == [] {
      assert a + b == b;
    } else {
      assert (a + b)[1..] == a[1..] + b && (a + b)[0] == a[0];
      OfClassConcat(a[1..], b, priority);
      Assoc(if a[0].priority == priority then [a[0]] else [], OfClass(a[1..], priority), OfClass(b, priority));
    }
  }

  lemma OfClassOne(r: Req, priority: bool)
    ensures OfClass([r], priority) == if r.priority == priority then [r] else []
  {
    assert OfClass([r], priority) == (if r.priority == priority then [r] else []) + OfClass([], priority);
  }

  /** Putting a request on the wire adds it behind the sent part of its class. */
  lemma SentClass(s: State, r: Req, priority: bool)
    ensures OfClass(Requests(Transmitted(s, r).sent), priority)
         == OfClass(Requests(s.sent), priority) + if r.priority == priority then [r] else []
  {
    RequestsSnoc(s.sent, Sent(s.transaction, r));
    OfClassConcat(Requests(s.sent), [r], priority);
    OfClassOne(r, priority);
  }

  lemma ProcessQueueLedger(s: State, priority: bool)
    requires s.req.None? && (forall x :: x in s.prio ==> x.priority) && (forall x :: x in s.queue ==> !x.priority)
    ensures Ledger(ProcessQueue(s), priority) == Ledger(s, priority)
  {
    hide OfClass, Requests, Ledger;
    if s.prio != [] {
      assert s.prio[0] in s.prio;
      HeadLedger(s, s.(prio := s.prio[1..]), s.prio[0], priority);
    } else if s.queue != [] {
      assert s.queue[0] in s.queue;
      HeadLedger(s, s.(queue := s.queue[1..]), s.queue[0], priority);
    }
  }

  /** Taking the head of a queue and sending it. */
  lemma HeadLedger(s: State, s': State, r: Req, priority: bool)
    requires s'.sent == s.sent && Queue(s, priority) == (if r.priority == priority then [r] else []) + Queue(s', priority)
    ensures Ledger(Transmitted(s', r), priority) == Ledger(s, priority)
  {
    hide OfClass, Requests;
    SentClass(s', r, priority);
    Assoc(OfClass(Requests(s.sent), priority), if r.priority == priority then [r] else [], Queue(s', priority));
  }

  /** Every event that does not jump keeps a class first-in first-out: whatever it submits goes behind everything of the
      class that was sent or queued before. */
  lemma LedgerNext(s: State, e: Event, first: nat, priority: bool)
    requires Inv(s, first) && !Jumps(s, e, priority)
    ensures Ledger(Next(s, e), priority) == Ledger(s, priority) + OfClass(Submitted(s, e), priority)
  {
    hide ProcessQueue, SendAll, Requests, OfClass, Ledger;
    Assoc(Ledger(s, priority), [], []);
    NoneOfClass(priority);
    match e {
      case Submit(r) =>
        OfClassOne(r, priority);
        if !s.link.Lost? && s.link.Connected? && s.req.None? {
          TransmittedLedger(s, r, priority);
        } else if !s.link.Lost? {
          EnqueuedLedger(s, r, priority);
        }
      case Connect =>
        if s.link.Connecting? {
          ProcessQueueLedger(s.(link := Connected), priority);
          SameLedger(s, s.(link := Connected), priority);
        }
      case Reply(t, signal, parses, followUps) =>
        if Accepts(s, t, signal) && parses {
          SendAllQueues(s, followUps, first);
          var s1 := SendAll(s, followUps);
          ProcessQueueLedger(s1.(req := None, closed := s1.closed + 1), priority);
          RepliedLedger(s, followUps, priority, s1);
        } else if Accepts(s, t, signal) {
          SameLedger(s, s.(link := Lost), priority);
        }
      case Timeout(_, _) => TimeoutInTurn(s, e, first, priority);
    }
  }

  /** The books after a timeout: what goes out at once is booked before what waits, the rest behind it. */
  lemma TimeoutLedger(s: State, e: Event, first: nat, priority: bool)
    requires Inv(s, first) && e.Timeout?
    ensures var rs, done, q := Submitted(s, e), OfClass(Requests(s.sent), priority), Queue(s, priority);
            if rs == [] then Ledger(Next(s, e), priority) == done + q && OfClass(rs, priority) == []
            else && Ledger(Next(s, e), priority) == done + OfClass([rs[0]], priority) + (q + OfClass(rs[1..], priority))
                 && OfClass(rs, priority) == OfClass([rs[0]], priority) + OfClass(rs[1..], priority)
  {
    hide Next, Requests, OfClass, Submitted;
    var rs := Submitted(s, e);
    NoneOfClass(priority);
    AfterTimeout(s, e, first, priority);
    if rs != [] {
      SentClass(s, rs[0], priority);
      OfClassOne(rs[0], priority);
      OfClassConcat([rs[0]], rs[1..], priority);
      assert rs == [rs[0]] + rs[1..];
    }
  }

  lemma AfterTimeout(s: State, e: Event, first: nat, priority: bool)
    requires Inv(s, first) && e.Timeout?
    ensures var rs, s' := Submitted(s, e), Next(s, e);
            && s'.sent == (if rs == [] then s.sent else s.sent + [Sent(s.transaction, rs[0])])
            && Queue(s', priority) == Queue(s, priority) + if rs == [] then [] else OfClass(rs[1..], priority)
  {
    hide SendAll, OfClass, OnTimeout;
    Assoc(Queue(s, priority), [], []);
    if TimesOut(s) {
      TimeoutInv(s, OnTimeout(s, e), first);
    }
  }

  lemma TimeoutInTurn(s: State, e: Event, first: nat, priority: bool)
    requires Inv(s, first) && e.Timeout? && !Jumps(s, e, priority)
    ensures Ledger(Next(s, e), priority) == Ledger(s, priority) + OfClass(Submitted(s, e), priority)
  {
    hide Next, Requests, OfClass;
    var rs, done, q := Submitted(s, e), OfClass(Requests(s.sent), priority), Queue(s, priority);
    TimeoutLedger(s, e, first, priority);
    if rs == [] {
      Assoc(done, q, []);
    } else {
      OfClassOne(rs[0], priority);
      Assoc(done, [], q);
      Assoc(done, q, OfClass(rs[1..], priority));
      Assoc(done, OfClass([rs[0]], priority), OfClass(rs[1..], priority));
    }
  }

  lemma NoneOfClass(priority: bool)
    ensures OfClass([], priority) == []
  {
  }

  lemma SameLedger(s: State, s': State, priority: bool)
    requires s'.sent == s.sent && s'.prio == s.prio && s'.queue == s.queue
    ensures Ledger(s', priority) == Ledger(s, priority)
  {
  }

  lemma TransmittedLedger(s: State, r: Req, priority: bool)
    requires s.prio == [] && s.queue == []
    ensures Ledger(Transmitted(s, r), priority) == Ledger(s, priority) + if r.priority == priority then [r] else []
  {
    hide OfClass, Requests;
    SentClass(s, r, priority);
    Assoc(OfClass(Requests(s.sent), priority), [], []);
  }

  lemma EnqueuedLedger(s: State, r: Req, priority: bool)
    ensures Ledger(Enqueued(s, r), priority) == Ledger(s, priority) + if r.priority == priority then [r] else []
  {
    hide OfClass, Requests;
  }

  lemma RepliedLedger(s: State, followUps: seq<Req>, priority: bool, s1: State)
    requires s1.sent == s.sent && s1.prio == s.prio + OfClass(followUps, true)
    requires s1.queue == s.queue + OfClass(followUps, false)
    ensures Ledger(s1.(req := None, closed := s1.closed + 1), priority) == Ledger(s, priority) + OfClass(followUps, priority)
  {
    hide OfClass, Requests;
  }

  /** Order, exactly: an event keeps a class first-in first-out if and only if it does not jump. `id` tells requests
      apart, so the request that goes out is not one of those waiting. */
  lemma KeepsTurnIff(s: State, e: Event, first: nat, priority: bool)
    requires Inv(s, first) && (Submitted(s, e) != [] ==> Submitted(s, e)[0] !in Queue(s, priority))
    ensures Ledger(Next(s, e), priority) == Ledger(s, priority) + OfClass(Submitted(s, e), priority)
       <==> !Jumps(s, e, priority)
  {
    if Jumps(s, e, priority) {
      hide Next, OfClass, Requests;
      var rs, done, q := Submitted(s, e), OfClass(Requests(s.sent), priority), Queue(s, priority);
      TimeoutLedger(s, e, first, priority);
      OfClassOne(rs[0], priority);
      assert Ledger(Next(s, e), priority)[|done|] == rs[0];
      assert (done + q + OfClass(rs, priority))[|done|] == q[0];
    } else {
      LedgerNext(s, e, first, priority);
    }
  }

  /** A concrete run: a suspend command times out and its callback, unlocking the end point, suspends again; the abort
      waits behind that second command, which times out as well, and the second abort goes out before the first. */
  lemma AbortOvertakes()
    ensures var s1, s2 := Req(0, SUSPEND, false), Req(1, SUSPEND, false);
            var a1, a2 := Req(2, ABORT, true), Req(3, ABORT, true);
            var s := After(Initial(0), [Connect, Submit(s1), Timeout(2, [s2]), Timeout(3, [])]);
            Requests(s.sent) == [s1, s2, a2] && s.prio == [a1]
  {
    var e, a2 := Timeout(3, []), Req(3, ABORT, true);
    var s := SuspendedTwice(e);
    assert OnTimeout(s, e) == [a2] && [a2][1..] == [];
    SendTwo(s.(req := None, closed := 2), [a2]);
    ThreeRequests(Next(s, e).sent);
  }

  /** The same run, but the callback suspends a third time: that ordinary command goes out before the urgent abort. */
  lemma CallbackOvertakes()
    ensures var s1, s2, s3 := Req(0, SUSPEND, false), Req(1, SUSPEND, false), Req(4, SUSPEND, false);
            var a1, a2 := Req(2, ABORT, true), Req(3, ABORT, true);
            var s := After(Initial(0), [Connect, Submit(s1), Timeout(2, [s2]), Timeout(3, [s3])]);
            Requests(s.sent) == [s1, s2, s3] && s.prio == [a1, a2]
  {
    var s3, a2 := Req(4, SUSPEND, false), Req(3, ABORT, true);
    var e := Timeout(3, [s3]);
    var s := SuspendedTwice(e);
    assert OnTimeout(s, e) == [s3, a2] && [s3, a2][1..] == [a2] && [a2][1..] == [];
    SendTwo(s.(req := None, closed := 2), [s3, a2]);
    ThreeRequests(Next(s, e).sent);
  }

  lemma SuspendedTwice(e: Event) returns (s: State)
    ensures var s1, s2, a1 := Req(0, SUSPEND, false), Req(1, SUSPEND, false), Req(2, ABORT, true);
            && s == State(Connected, Some(Sent(1, s2)), [a1], [], 2, [Sent(0, s1), Sent(1, s2)], 1)
            && After(Initial(0), [Connect, Submit(s1), Timeout(2, [s2]), e]) == Next(s, e)
  {
    var s1, s2, a1 := Req(0, SUSPEND, false), Req(1, SUSPEND, false), Req(2, ABORT, true);
    var e0, e1, e2 := Connect, Submit(s1), Timeout(2, [s2]);
    var t0 := Next(Initial(0), e0);
    var t1 := Next(t0, e1);
    assert OnTimeout(t1, e2) == [s2, a1] && [s2, a1][1..] == [a1] && [a1][1..] == [];
    SendTwo(t1.(req := None, closed := 1), [s2, a1]);
    s := Next(t1, e2);
    assert s == State(Connected, Some(Sent(1, s2)), [a1], [], 2, [Sent(0, s1), Sent(1, s2)], 1);
    assert [e0, e1, e2, e][1..] == [e1, e2, e] && [e1, e2, e][1..] == [e2, e] && [e2, e][1..] == [e] && [e][1..] == [];
    hide Next;
    assert After(Next(s, e), []) == Next(s, e) && After(s, [e]) == Next(s, e) && After(t1, [e2, e]) == Next(s, e);
    assert After(t0, [e1, e2, e]) == Next(s, e);
  }

  lemma SendTwo(s: State, rs: seq<Req>)
    requires 1 <= |rs| <= 2
    ensures SendAll(s, rs) == if |rs| == 1 then SendReq(s, rs[0]) else SendReq(SendReq(s, rs[0]), rs[1])
  {
    hide SendReq;
    var t := SendReq(s, rs[0]);
    if |rs| == 1 {
      assert rs[1..] == [] && SendAll(t, []) == t;
    } else {
      var rest := rs[1..];
      assert rest[1..] == [];
      assert SendAll(t, rest) == SendAll(SendReq(t, rest[0]), []);
    }
  }

  lemma ThreeRequests(sent: seq<Sent>)
    ensures |sent| == 3 ==> Requests(sent) == [sent[0].req, sent[1].req, sent[2].req]
  {
    if |sent| == 3 {
      var a, b := sent[1..], sent[1..][1..];
      assert b == [sent[2]] && b[1..] == [] && Requests(b) == [sent[2].req] + Requests([]);
      assert Requests(a) == [sent[1].req] + Requests(b);
    }
  }

  /** An ordinary request goes out although urgent ones were waiting before the event. */
  ghost predicate PassesUrgent(s: State, s': State) {
    |s'.sent| > |s.sent| && !s'.sent[|s'.sent| - 1].req.priority && s.prio != []
  }

  /** Urgent requests first, exactly: no event sends more than one command, and an ordinary one passes waiting urgent ones
      if and only if the callback of a timed-out command submits it first. For any other event nothing urgent, not
      even what the event itself submits, is left waiting when an ordinary request goes out. */
  lemma UrgentFirstIff(s: State, e: Event, first: nat)
    requires Inv(s, first)
    ensures |s.sent| <= |Next(s, e).sent| <= |s.sent| + 1
    ensures PassesUrgent(s, Next(s, e))
       <==> e.Timeout? && Submitted(s, e) != [] && !Submitted(s, e)[0].priority && s.prio != []
    ensures var s' := Next(s, e);
            !e.Timeout? && |s'.sent| > |s.sent| && !s'.sent[|s'.sent| - 1].req.priority ==> s'.prio == []
  {
    hide SendAll, OfClass;
    assert s.prio != [] ==> s.prio[0] in s.prio;
    match e {
      case Reply(t, signal, parses, followUps) =>
        if Accepts(s, t, signal) && parses {
          SendAllQueues(s, followUps, first);
          var s1 := SendAll(s, followUps);
          assert s1.prio != [] ==> s1.prio[0] in s1.prio;
        }
      case Timeout(_, _) =>
        if TimesOut(s) {
          TimeoutInv(s, OnTimeout(s, e), first);
        }
      case _ =>
    }
  }

  /** Replies, exactly: a reply changes anything if and only if a command is outstanding on a connected session and the
      reply carries both its label and its signal. One that does not parse then loses the connection; any other closes
      that command, which is outstanding no longer, and leaves everything sent before as it is. */
  lemma ReplyIff(s: State, e: Event, first: nat)
    requires Inv(s, first) && e.Reply?
    ensures Next(s, e) != s
       <==> && s.link == Connected && s.req.Some?
            && s.req.value.transaction == e.transaction && s.req.value.req.signal == e.signal
    ensures Next(s, e) != s && !e.parses ==> Next(s, e) == s.(link := Lost)
    ensures Next(s, e) != s && e.parses ==>
              var s' := Next(s, e);
              && s'.link == Connected && s'.closed == s.closed + 1 && s.sent <= s'.sent
              && (if s'.req.Some? then s'.sent == s.sent + [s'.req.value] else s'.sent == s.sent)
  {
    hide SendAll;
    if Accepts(s, e.transaction, e.signal) && e.parses {
      SendAllQueues(s, e.followUps, first);
    }
  }

  /** Connecting happens once, and sends the head of the urgent queue, else of the other. */
  lemma ConnectIs(s: State, first: nat)
    requires Inv(s, first)
    ensures s.link != Connecting ==> Next(s, Connect) == s
    ensures s.link == Connecting ==>
              var s' := Next(s, Connect);
              && s'.link == Connected
              && (if s.prio != [] then s'.sent == s.sent + [Sent(s.transaction, s.prio[0])] && s'.prio == s.prio[1..]
                  else if s.queue != [] then s'.sent == s.sent + [Sent(s.transaction, s.queue[0])] && s'.queue == s.queue[1..]
                  else s' == s.(link := Connected))
  {
  }

  /** Timeouts, by signal number: discover, get capabilities, set configuration and abort lose the connection; after any
      other command an abort is submitted, behind what the callback of a reconfigure, open, start, close or suspend asks
      for; that of a set configuration is heard as well. */
  lemma TimeoutIs(s: State, e: Event, first: nat)
    requires Inv(s, first) && e.Timeout?
    ensures s.link != Connected || s.req.None? ==> Next(s, e) == s
    ensures s.link == Connected && s.req.Some? ==>
              var s', signal := Next(s, e), s.req.value.req.signal;
              && (s'.link == if signal in {1, 2, 3, 10} then Lost else Connected) && s'.closed == s.closed + 1
              && Submitted(s, e) == (if signal in {3, 5, 6, 7, 8, 9} then e.followUps else [])
                                  + (if signal in {1, 2, 3, 10} then [] else [Req(e.abort, 10, true)])
              && (if Submitted(s, e) == [] then s'.sent == s.sent && s'.req.None?
                  else s'.sent == s.sent + [Sent(s.transaction, Submitted(s, e)[0])] && s'.req.Some?)
  {
    hide SendAll, OfClass;
    if TimesOut(s) {
      TimeoutInv(s, OnTimeout(s, e), first);
    }
  }

  /** A late response to one of the fifteen commands before the outstanding one is ignored, whatever its signal. */
  lemma StaleReplyIgnored(s: State, first: nat, i: nat, signal: nat, parses: bool, followUps: seq<Req>)
    requires Inv(s, first) && s.req.Some? && i < |s.sent| - 1 <= i + 15
    ensures Next(s, Reply(s.sent[i].transaction, signal, parses, followUps)) == s
  {
    LabelsDiffer(first + i, |s.sent| - 1 - i);
  }

  lemma LabelsDiffer(a: nat, d: nat)
    requires 0 < d < 16
    ensures a % 16 != (a + d) % 16
  {
  }

  ghost function AllSubmitted(s: State, events: seq<Event>): seq<Req>
    decreases |events|
  {
    if events == [] then [] else Submitted(s, events[0]) + AllSubmitted(Next(s, events[0]), events[1..])
  }

  /** No event of the run jumps. */
  ghost predicate InTurn(s: State, events: seq<Event>, priority: bool)
    decreases |events|
  {
    events == [] || (!Jumps(s, events[0], priority) && InTurn(Next(s, events[0]), events[1..], priority))
  }

  /** Scheduling, over every run: the invariant holds throughout, and for each class in which no timeout jumps the queue
      the requests sent followed by those still queued are exactly the requests submitted, in order. */
  lemma {:induction false} EveryRun(s: State, events: seq<Event>, first: nat, priority: bool)
    requires Inv(s, first)
    ensures Inv(After(s, events), first)
    ensures InTurn(s, events, priority) ==>
              Ledger(After(s, events), priority) == Ledger(s, priority) + OfClass(AllSubmitted(s, events), priority)
    decreases |events|
  {
    hide Inv, Ledger, Next, Submitted, Jumps;
    if events == [] {
      assert Ledger(s, priority) + [] == Ledger(s, priority);
    } else {
      var e, rest := events[0], events[1..];
      InvNext(s, e, first);
      EveryRun(Next(s, e), rest, first, priority);
      if !Jumps(s, e, priority) {
        LedgerNext(s, e, first, priority);
      }
      OfClassConcat(Submitted(s, e), AllSubmitted(Next(s, e), rest), priority);
      Assoc(Ledger(s, priority), OfClass(Submitted(s, e), priority), OfClass(AllSubmitted(Next(s, e), rest), priority));
    }
  }

  // ---- what the library itself submits ----

  /** The events that occur when no callback of a timed-out command submits anything: callers submit ordinary requests,
      and urgent ones are the get-capabilities requests submitted while the answer to a discover command is handled. */
  ghost predicate Usual(e: Event) {
    match e
    case Submit(r) => !r.priority
    case Connect => true
    case Reply(_, signal, _, followUps) =>
      forall r :: r in followUps && r.priority ==> signal == DISCOVER && r.signal == GET_CAPABILITIES
    case Timeout(_, followUps) => followUps == []
  }

  /** Only get-capabilities requests wait in the urgent queue, and while they do one of them is outstanding. */
  ghost predicate Discovering(s: State) {
    && (forall r :: r in s.prio ==> r.signal == GET_CAPABILITIES)
    && (s.prio != [] && !s.link.Lost? ==> s.req.Some? && s.req.value.req.signal == GET_CAPABILITIES)
  }

  lemma {:induction false} OfClassMembers(rs: seq<Req>, priority: bool)
    ensures forall r :: r in OfClass(rs, priority) <==> r in rs && r.priority == priority
  {
    if rs != [] {
      OfClassMembers(rs[1..], priority);
      assert rs == [rs[0]] + rs[1..];
    }
  }

  /** A usual event keeps that, jumps no queue and passes no urgent request. */
  lemma UsualNext(s: State, e: Event, first: nat)
    requires Inv(s, first) && Discovering(s) && Usual(e)
    ensures Discovering(Next(s, e)) && !PassesUrgent(s, Next(s, e))
    ensures !Jumps(s, e, true) && !Jumps(s, e, false)
  {
    hide SendAll, OfClass, PassesUrgent;
    UrgentFirstIff(s, e, first);
    if e.Reply? {
      UsualReply(s, e, first);
    } else if e.Timeout? {
      UsualTimeout(s, e, first);
    }
  }

  lemma UsualReply(s: State, e: Event, first: nat)
    requires Inv(s, first) && Discovering(s) && Usual(e) && e.Reply?
    ensures Discovering(Next(s, e))
  {
    hide SendAll, OfClass, Inv;
    if Accepts(s, e.transaction, e.signal) && e.parses {
      SendAllQueues(s, e.followUps, first);
      OfClassMembers(e.followUps, true);
      var s1 := SendAll(s, e.followUps);
      assert s1.prio != [] ==> s1.prio[0] in s1.prio;
    }
  }

  lemma UsualTimeout(s: State, e: Event, first: nat)
    requires Inv(s, first) && Discovering(s) && Usual(e) && e.Timeout?
    ensures Discovering(Next(s, e)) && !Jumps(s, e, true) && !Jumps(s, e, false)
  {
    hide Next, OfClass, Inv;
    var rs := Submitted(s, e);
    assert |rs| <= 1 && (rs != [] ==> rs[0].priority);
    TimeoutIs(s, e, first);
    AfterTimeout(s, e, first, true);
    NoneOfClass(true);
    assert rs != [] ==> rs[1..] == [];
    assert s.prio + [] == s.prio;
  }

  /** No event of the run lets an ordinary request pass an urgent one. */
  ghost predicate NeverPasses(s: State, events: seq<Event>)
    decreases |events|
  {
    events == [] || (!PassesUrgent(s, Next(s, events[0])) && NeverPasses(Next(s, events[0]), events[1..]))
  }

  lemma {:induction false} UsualInTurn(s: State, events: seq<Event>, first: nat)
    requires Inv(s, first) && Discovering(s) && forall i :: 0 <= i < |events| ==> Usual(events[i])
    ensures InTurn(s, events, true) && InTurn(s, events, false) && NeverPasses(s, events)
    decreases |events|
  {
    hide Inv, Discovering, Usual, Next, Jumps, PassesUrgent;
    if events != [] {
      InvNext(s, events[0], first);
      UsualNext(s, events[0], first);
      UsualInTurn(Next(s, events[0]), events[1..], first);
    }
  }

  /** Scheduling of a new session over every usual run, timeouts and lost connections included: both classes are first-in
      first-out without further conditions, and no ordinary request ever goes out while an urgent one waits. */
  lemma UsualRun(events: seq<Event>, first: nat, priority: bool)
    requires first < 16 && forall i :: 0 <= i < |events| ==> Usual(events[i])
    ensures Inv(After(Initial(first), events), first) && NeverPasses(Initial(first), events)
    ensures Ledger(After(Initial(first), events), priority) == OfClass(AllSubmitted(Initial(first), events), priority)
  {
    hide Inv, Ledger, OfClass, After, AllSubmitted, InTurn, NeverPasses, Usual;
    InitialInv(first, priority);
    UsualInTurn(Initial(first), events, first);
    EveryRun(Initial(first), events, first, priority);
    Empty(OfClass(AllSubmitted(Initial(first), events), priority));
  }

  lemma Empty(a: seq<Req>)
    ensures [] + a == a
  {
  }

  lemma Assoc(a: seq<Req>, b: seq<Req>, c: seq<Req>)
    ensures a + b + c == a + (b + c) && a + [] == a
  {
  }

  /** A new session starts in the invariant with nothing submitted. */
  lemma InitialInv(first: nat, priority: bool)
    requires first < 16
    ensures Inv(Initial(first), first) && Ledger(Initial(first), priority) == []
  {
  }
}

/** The acceptor side of AVDTP stream management: stream end points, the streams configured on them by the remote
    side, and the session that owns the streams. */
module AvdtpAcceptor {
  import opened Options

  datatype SepState = Idle | Configured | Open | Streaming | Closing | Aborting

  /** struct avdtp_local_sep. */
  datatype Sep = Sep(seid: nat, state: SepState, stream: Option<nat>)

  /** struct avdtp_stream: its end point, whether its transport channel is there, and whether opening it is awaited
      from the other side. */
  datatype Stream = Stream(lsep: nat, rseid: nat, connected: bool, openAcp: bool)

  /** The end points, the streams in memory (by address), and the session's stream list and pending open.
      `nextAddr` is the next unused address; `up` tells whether the signalling channel is there. */
  datatype State = State(seps: seq<Sep>, heap: map<nat, Stream>, streams: seq<nat>, pendingOpen: Option<nat>,
                         nextAddr: nat, up: bool)

  const BAD_ACP_SEID := 0x12
  const SEP_IN_USE := 0x13
  const BAD_MEDIA_TRANSPORT_FORMAT := 0x23
  const BAD_STATE := 0x31

  /** How a command is answered: accepted, rejected with a code (`Refused` when the code is the application's), or,
      for start, a rejection sent with the message type of an acceptance. */
  datatype Answer = Accept | Reject(code: nat) | Refused | AcceptReject

  /** A handler's effect: the new state and its answer. */
  datatype Outcome = Outcome(s: State, answer: Answer)

  function FindSep(seps: seq<Sep>, seid: nat): (i: nat)
    ensures i <= |seps| && (i < |seps| ==> seps[i].seid == seid)
  {
    if seps == [] || seps[0].seid == seid then 0 else 1 + FindSep(seps[1..], seid)
  }

  function Without(l: seq<nat>, id: nat): seq<nat> {
    if l == [] then [] else if l[0] == id then l[1..] else [l[0]] + Without(l[1..], id)
  }

  function WithState(s: State, i: nat, state: SepState): State
    requires i < |s.seps|
  {
    s.(seps := s.seps[i := s.seps[i].(state := state)])
  }

  /** avdtp_sep_set_state. Going idle unlinks and frees the stream. */
  function SetState(s: State, i: nat, state: SepState): State
    requires i < |s.seps|
  {
    var id := s.seps[i].stream;
    if state == Idle && id.Some? && id.value in s.streams then
      State(s.seps[i := Sep(s.seps[i].seid, Idle, None)], s.heap - {id.value}, Without(s.streams, id.value),
            if s.pendingOpen == id then None else s.pendingOpen, s.nextAddr, s.up)
    else WithState(s, i, state)
  }

  // ---- commands ----

  /** avdtp_setconf_cmd: `goodCaps` is the media transport check, `agreed` the application's answer. */
  function SetConfiguration(s: State, acpSeid: nat, intSeid: nat, goodCaps: bool, agreed: bool): Outcome {
    var i := FindSep(s.seps, acpSeid);
    if i == |s.seps| then Outcome(s, Reject(BAD_ACP_SEID))
    else if s.seps[i].stream.Some? then Outcome(s, Reject(SEP_IN_USE))
    else if !goodCaps then Outcome(s, Reject(BAD_MEDIA_TRANSPORT_FORMAT))
    else if !agreed then Outcome(s, Refused)
    else
      Outcome(s.(seps := s.seps[i := Sep(s.seps[i].seid, Configured, Some(s.nextAddr))],
                 heap := s.heap[s.nextAddr := Stream(i, intSeid, false, false)],
                 streams := s.streams + [s.nextAddr], nextAddr := s.nextAddr + 1), Accept)
  }

  /** avdtp_open_cmd. */
  function OpenCmd(s: State, seid: nat, agreed: bool): Outcome {
    var i := FindSep(s.seps, seid);
    if i == |s.seps| then Outcome(s, Reject(BAD_ACP_SEID))
    else if s.seps[i].state != Configured || s.seps[i].stream.None? || s.seps[i].stream.value !in s.heap then
      Outcome(s, Reject(BAD_STATE))
    else if !agreed then Outcome(s, Refused)
    else
      var id := s.seps[i].stream.value;
      Outcome(s.(heap := s.heap[id := s.heap[id].(openAcp := true)], pendingOpen := Some(id)), Accept)
  }

  /** One turn of the loops of avdtp_start_cmd and avdtp_suspend_cmd: from one state to the next. */
  function Shift(s: State, seid: nat, from: SepState, to: SepState, agreed: bool): Outcome {
    var i := FindSep(s.seps, seid);
    if i == |s.seps| || s.seps[i].stream.None? then Outcome(s, Reject(BAD_ACP_SEID))
    else if s.seps[i].state != from then Outcome(s, Reject(BAD_STATE))
    else if !agreed then Outcome(s, Refused)
    else Outcome(SetState(s, i, to), Accept)
  }

  /** The whole loop: however many end points are named, it is always the first one that is looked up. */
  function ShiftAll(s: State, seid: nat, count: nat, from: SepState, to: SepState, agreed: bool): Outcome
    decreases count
  {
    if count == 0 then Outcome(s, Accept)
    else
      var o := Shift(s, seid, from, to, agreed);
      if o.answer != Accept then o else ShiftAll(o.s, seid, count - 1, from, to, agreed)
  }

  /** avdtp_start_cmd on `count` end points, the first of them `seid`. */
  function StartCmd(s: State, seid: nat, count: nat, agreed: bool): Outcome {
    var o := ShiftAll(s, seid, count, Open, Streaming, agreed);
    if o.answer == Accept then o else Outcome(o.s, AcceptReject)
  }

  function SuspendCmd(s: State, seid: nat, count: nat, agreed: bool): Outcome {
    ShiftAll(s, seid, count, Streaming, Open, agreed)
  }

  /** avdtp_close_cmd. */
  function CloseCmd(s: State, seid: nat, agreed: bool): Outcome {
    var i := FindSep(s.seps, seid);
    if i == |s.seps| || s.seps[i].stream.None? then Outcome(s, Reject(BAD_ACP_SEID))
    else if s.seps[i].state != Open && s.seps[i].state != Streaming then Outcome(s, Reject(BAD_STATE))
    else if !agreed then Outcome(s, Refused)
    else Outcome(SetState(s, i, Closing), Accept)
  }

  /** avdtp_abort_cmd. */
  function AbortCmd(s: State, seid: nat, agreed: bool): Outcome {
    var i := FindSep(s.seps, seid);
    if i == |s.seps| || s.seps[i].stream.None? then Outcome(s, Reject(BAD_ACP_SEID))
    else if !agreed then Outcome(s, Refused)
    else Outcome(SetState(s, i, Aborting), Accept)
  }

  // ---- channels and timers ----

  /** handle_transport_connect, once the awaited transport channel comes in. */
  function TransportConnected(s: State): State {
    if s.pendingOpen.None? || s.pendingOpen.value !in s.heap || !s.heap[s.pendingOpen.value].openAcp then s
    else
      var id := s.pendingOpen.value;
      var s1 := s.(pendingOpen := None);
      if id !in s.streams || s.heap[id].lsep >= |s.seps| then s1
      else SetState(s1.(heap := s1.heap[id := s1.heap[id].(connected := true)]), s.heap[id].lsep, Open)
  }

  /** transport_cb: the transport channel of a stream went away. */
  function TransportClosed(s: State, id: nat): State {
    if id !in s.heap || !s.heap[id].connected || s.heap[id].lsep >= |s.seps| then s
    else SetState(s, s.heap[id].lsep, Idle)
  }

  /** stream_open_timeout: gives up waiting for a transport channel; a stream past opening is aborted if the abort
      request can be sent. */
  function OpenTimedOut(s: State, id: nat, sendOk: bool): State {
    if id !in s.heap || !s.heap[id].openAcp || s.heap[id].connected then s
    else
      var s1 := s.(pendingOpen := None);
      var i := s.heap[id].lsep;
      if id !in s.streams || i >= |s.seps| || s.seps[i].state in {Idle, Configured, Open} || !sendOk then s1
      else SetState(s1, i, Aborting)
  }

  /** connection_lost: every stream of the session is released. */
  function Released(s: State, ids: seq<nat>): State
    decreases |ids|
  {
    if ids == [] then s
    else if ids[0] !in s.heap || s.heap[ids[0]].lsep >= |s.seps| then Released(s, ids[1..])
    else Released(SetState(s, s.heap[ids[0]].lsep, Idle), ids[1..])
  }

  function ConnectionLost(s: State): State {
    Released(s, s.streams).(streams := [], up := false)
  }

  // ---- events ----

  datatype Command =
    | SetConf(acpSeid: nat, intSeid: nat, goodCaps: bool)
    | OpenReq(seid: nat)
    | StartReq(seid: nat, count: nat)
    | SuspendReq(seid: nat, count: nat)
    | CloseReq(seid: nat)
    | AbortReq(seid: nat)
    | Malformed

  datatype Event =
    | Cmd(c: Command, agreed: bool, sendOk: bool)
    | Transport
    | Hangup(stream: nat)
    | OpenTimer(stream: nat, sent: bool)
    | Disconnect
    | Reconnect

  function Handle(s: State, c: Command, agreed: bool): Outcome {
    match c
    case SetConf(acp, int_, good) => SetConfiguration(s, acp, int_, good, agreed)
    case OpenReq(seid) => OpenCmd(s, seid, agreed)
    case StartReq(seid, n) => StartCmd(s, seid, n, agreed)
    case SuspendReq(seid, n) => SuspendCmd(s, seid, n, agreed)
    case CloseReq(seid) => CloseCmd(s, seid, agreed)
    case AbortReq(seid) => AbortCmd(s, seid, agreed)
    case Malformed => Outcome(s, Refused)
  }

  /** Set configuration, open and abort change nothing until their acceptance has gone out; start, suspend and close
      change the state first. */
  predicate AnswersFirst(c: Command) {
    c.SetConf? || c.OpenReq? || c.AbortReq?
  }

  /** session_cb for a command: a malformed command or an answer that cannot be sent ends the connection. */
  function Next(s: State, e: Event): State {
    match e
    case Cmd(c, agreed, sendOk) =>
      if !s.up then s
      else if c.Malformed? then ConnectionLost(s)
      else
        var o := Handle(s, c, agreed);
        if sendOk then o.s else ConnectionLost(if AnswersFirst(c) then s else o.s)
    case Transport => TransportConnected(s)
    case Hangup(id) => TransportClosed(s, id)
    case OpenTimer(id, sent) => OpenTimedOut(s, id, sent)
    case Disconnect => ConnectionLost(s)
    case Reconnect => s.(up := true)
  }

  // ---- the session object ----

  class Session {
    var seps: seq<Sep>
    var heap: map<nat, Stream>
    var streams: seq<nat>
    var pendingOpen: Option<nat>
    var nextAddr: nat
    var up: bool

    ghost function Abstract(): State
      reads this
    {
      State(seps, heap, streams, pendingOpen, nextAddr, up)
    }

    constructor (seps: seq<Sep>)
      ensures Abstract() == State(seps, map[], [], None, 0, false)
    {
      this.seps, heap, streams, pendingOpen, nextAddr, up := seps, map[], [], None, 0, false;
    }

    method FindLocalSep(seid: nat) returns (i: nat)
      ensures i == FindSep(seps, seid)
    {
      i := 0;
      while i < |seps| && seps[i].seid != seid
        invariant 0 <= i <= |seps| && FindSep(seps, seid) == i + FindSep(seps[i..], seid)
      {
        assert seps[i..][1..] == seps[i + 1..];
        i := i + 1;
      }
    }

    method SepSetState(i: nat, state: SepState)
      requires i < |seps|
      modifies this
      ensures Abstract() == SetState(old(Abstract()), i, state)
    {
      var id := seps[i].stream;
      seps := seps[i := seps[i].(state := state)];
      if state == Idle && id.Some? && id.value in streams {
        streams := Without(streams, id.value);
        if pendingOpen == id {
          pendingOpen := None;
        }
        seps := seps[i := seps[i].(stream := None)];
        heap := heap - {id.value};
      }
    }

    method SetConfigurationCmd(acpSeid: nat, intSeid: nat, goodCaps: bool, agreed: bool, sendOk: bool)
      returns (r: Answer, ok: bool)
      modifies this
      ensures var o := SetConfiguration(old(Abstract()), acpSeid, intSeid, goodCaps, agreed);
              r == o.answer && ok == sendOk && Abstract() == if sendOk then o.s else old(Abstract())
    {
      ok := sendOk;
      var i := FindLocalSep(acpSeid);
      if i == |seps| {
        return Reject(BAD_ACP_SEID), ok;
      }
      if seps[i].stream.Some? {
        return Reject(SEP_IN_USE), ok;
      }
      if !goodCaps {
        return Reject(BAD_MEDIA_TRANSPORT_FORMAT), ok;
      }
      if !agreed {
        return Refused, ok;
      }
      r := Accept;
      if !sendOk {
        return;
      }
      var stream := Stream(i, intSeid, false, false);
      heap := heap[nextAddr := stream];
      seps := seps[i := seps[i].(stream := Some(nextAddr))];
      streams := streams + [nextAddr];
      nextAddr := nextAddr + 1;
      SepSetState(i, Configured);
    }

    method OpenCommand(seid: nat, agreed: bool, sendOk: bool) returns (r: Answer, ok: bool)
      modifies this
      ensures var o := OpenCmd(old(Abstract()), seid, agreed);
              r == o.answer && ok == sendOk && Abstract() == if sendOk then o.s else old(Abstract())
    {
      ok := sendOk;
      var i := FindLocalSep(seid);
      if i == |seps| {
        return Reject(BAD_ACP_SEID), ok;
      }
      if seps[i].state != Configured || seps[i].stream.None? || seps[i].stream.value !in heap {
        return Reject(BAD_STATE), ok;
      }
      if !agreed {
        return Refused, ok;
      }
      r := Accept;
      if sendOk {
        var id := seps[i].stream.value;
        heap := heap[id := heap[id].(openAcp := true)];
        pendingOpen := Some(id);
      }
    }

    /** The loop over the end points of a start or suspend command. */
    method ShiftLoop(seid: nat, count: nat, from: SepState, to: SepState, agreed: bool) returns (r: Answer)
      modifies this
      ensures Outcome(Abstract(), r) == ShiftAll(old(Abstract()), seid, count, from, to, agreed)
    {
      var n := 0;
      while n < count
        invariant 0 <= n <= count
        invariant ShiftAll(old(Abstract()), seid, count, from, to, agreed)
               == ShiftAll(Abstract(), seid, count - n, from, to, agreed)
      {
        var i := FindLocalSep(seid);
        if i == |seps| || seps[i].stream.None? {
          return Reject(BAD_ACP_SEID);
        }
        if seps[i].state != from {
          return Reject(BAD_STATE);
        }
        if !agreed {
          return Refused;
        }
        SepSetState(i, to);
        n := n + 1;
      }
      return Accept;
    }

    /** avdtp_start_cmd: a refusal goes out with the message type of an acceptance. */
    method StartCommand(seid: nat, count: nat, agreed: bool) returns (r: Answer)
      modifies this
      ensures Outcome(Abstract(), r) == StartCmd(old(Abstract()), seid, count, agreed)
    {
      r := ShiftLoop(seid, count, Open, Streaming, agreed);
      if r != Accept {
        r := AcceptReject;
      }
    }

    method CloseCommand(seid: nat, agreed: bool) returns (r: Answer)
      modifies this
      ensures Outcome(Abstract(), r) == CloseCmd(old(Abstract()), seid, agreed)
    {
      var i := FindLocalSep(seid);
      if i == |seps| || seps[i].stream.None? {
        return Reject(BAD_ACP_SEID);
      }
      if seps[i].state != Open && seps[i].state != Streaming {
        return Reject(BAD_STATE);
      }
      if !agreed {
        return Refused;
      }
      SepSetState(i, Closing);
      return Accept;
    }

    method AbortCommand(seid: nat, agreed: bool, sendOk: bool) returns (r: Answer, ok: bool)
      modifies this
      ensures var o := AbortCmd(old(Abstract()), seid, agreed);
              r == o.answer && ok == sendOk && Abstract() == if sendOk then o.s else old(Abstract())
    {
      ok := sendOk;
      var i := FindLocalSep(seid);
      if i == |seps| || seps[i].stream.None? {
        return Reject(BAD_ACP_SEID), ok;
      }
      if !agreed {
        return Refused, ok;
      }
      r := Accept;
      if sendOk {
        SepSetState(i, Aborting);
      }
    }

    method HandleTransportConnect()
      modifies this
      ensures Abstract() == TransportConnected(old(Abstract()))
    {
      if pendingOpen.None? || pendingOpen.value !in heap || !heap[pendingOpen.value].openAcp {
        return;
      }
      var id := pendingOpen.value;
      var i := heap[id].lsep;
      pendingOpen := None;
      if id !in streams || i >= |seps| {
        return;
      }
      heap := heap[id := heap[id].(connected := true)];
      SepSetState(i, Open);
    }

    /** connection_lost: release_stream on every stream of the list. */
    method Lose()
      modifies this
      ensures Abstract() == ConnectionLost(old(Abstract()))
    {
      var ids, k := streams, 0;
      while k < |ids|
        invariant 0 <= k <= |ids|
        invariant Released(old(Abstract()), ids) == Released(Abstract(), ids[k..])
      {
        var id := ids[k];
        assert ids[k..][1..] == ids[k + 1..];
        if id in heap && heap[id].lsep < |seps| {
          SepSetState(heap[id].lsep, Idle);
        }
        k := k + 1;
      }
      streams, up := [], false;
    }

    method HandleTransportClosed(id: nat)
      modifies this
      ensures Abstract() == TransportClosed(old(Abstract()), id)
    {
      if id in heap && heap[id].connected && heap[id].lsep < |seps| {
        SepSetState(heap[id].lsep, Idle);
      }
    }

    method HandleOpenTimeout(id: nat, sendOk: bool)
      modifies this
      ensures Abstract() == OpenTimedOut(old(Abstract()), id, sendOk)
    {
      if id !in heap || !heap[id].openAcp || heap[id].connected {
        return;
      }
      pendingOpen := None;
      var i := heap[id].lsep;
      if id in streams && i < |seps| && seps[i].state !in {Idle, Configured, Open} && sendOk {
        SepSetState(i, Aborting);
      }
    }

    /** The command half of session_cb; what the application says and whether the answer goes out are given. */
    method HandleCommand(c: Command, agreed: bool, sendOk: bool)
      requires up
      modifies this
      ensures Abstract() == Next(old(Abstract()), Cmd(c, agreed, sendOk))
    {
      hide ShiftAll, ConnectionLost;
      var ok, r := sendOk, Refused;
      match c {
        case SetConf(acp, int_, good) => r, ok := SetConfigurationCmd(acp, int_, good, agreed, sendOk);
        case OpenReq(seid) => r, ok := OpenCommand(seid, agreed, sendOk);
        case StartReq(seid, n) => r := StartCommand(seid, n, agreed);
        case SuspendReq(seid, n) => r := ShiftLoop(seid, n, Streaming, Open, agreed);
        case CloseReq(seid) => r := CloseCommand(seid, agreed);
        case AbortReq(seid) => r, ok := AbortCommand(seid, agreed, sendOk);
        case Malformed => ok := false;
      }
      if !ok {
        Lose();
      }
    }

    /** Any event; the invariant of the session is kept. */
    method Handle(e: Event)
      modifies this
      ensures Abstract() == Next(old(Abstract()), e)
      ensures Inv(old(Abstract())) ==> Inv(Abstract())
    {
      hide Next, Inv;
      if Inv(Abstract()) {
        InvNext(Abstract(), e);
      }
      Dispatch(e);
    }

    method Dispatch(e: Event)
      modifies this
      ensures Abstract() == Next(old(Abstract()), e)
    {
      hide ConnectionLost, TransportConnected, TransportClosed, OpenTimedOut;
      match e {
        case Cmd(c, agreed, sendOk) =>
          if up {
            HandleCommand(c, agreed, sendOk);
          }
        case Transport => HandleTransportConnect();
        case Hangup(id) => HandleTransportClosed(id);
        case OpenTimer(id, sent) => HandleOpenTimeout(id, sent);
        case Disconnect => Lose();
        case Reconnect => up := true;
      }
    }
  }

  // ---- the invariant ----

  /** A stream of the session: it is in memory, its end point exists and points back to it. */
  ghost predicate Linked(s: State, id: nat) {
    id in s.heap && s.heap[id].lsep < |s.seps| && s.seps[s.heap[id].lsep].stream == Some(id) && id < s.nextAddr
  }

  /** An end point: busy exactly when it has a stream; the stream is the session's and points back; open or streaming
      only over a connected transport. */
  ghost predicate SepOk(s: State, i: nat)
    requires i < |s.seps|
  {
    var sep := s.seps[i];
    && (sep.state != Idle <==> sep.stream.Some?)
    && (sep.stream.Some? ==>
          && sep.stream.value in s.streams && sep.stream.value in s.heap && s.heap[sep.stream.value].lsep == i
          && (sep.state in {Open, Streaming} ==> s.heap[sep.stream.value].connected))
  }

  ghost predicate NoDuplicates(l: seq<nat>) {
    forall i, j :: 0 <= i < j < |l| ==> l[i] != l[j]
  }

  /** The stream whose transport is awaited was configured and opened by the other side, or has been aborted since. */
  ghost predicate PendingOk(s: State, id: nat) {
    && id in s.streams && id in s.heap && s.heap[id].lsep < |s.seps|
    && s.seps[s.heap[id].lsep].state in {Configured, Aborting} && s.heap[id].openAcp
  }

  ghost predicate Inv(s: State) {
    && (forall i :: 0 <= i < |s.seps| ==> SepOk(s, i))
    && NoDuplicates(s.streams)
    && (forall id :: id in s.streams ==> Linked(s, id))
    && (forall id :: id in s.heap <==> id in s.streams)
    && (s.pendingOpen.Some? ==> PendingOk(s, s.pendingOpen.value))
    && (!s.up ==> s.streams == [])
  }

  lemma {:induction false} WithoutMembers(l: seq<nat>, id: nat)
    requires NoDuplicates(l)
    ensures NoDuplicates(Without(l, id)) && forall x :: x in Without(l, id) <==> x in l && x != id
  {
    if l != [] {
      var t := l[1..];
      assert l == [l[0]] + t && l[0] !in t;
      if l[0] != id {
        WithoutMembers(t, id);
      }
    }
  }

  /** Going idle: the end point is unlinked, its stream is gone, nothing else changes. */
  lemma IdleInv(s: State, i: nat)
    requires Inv(s) && i < |s.seps|
    ensures Inv(SetState(s, i, Idle))
    ensures SetState(s, i, Idle).seps == s.seps[i := Sep(s.seps[i].seid, Idle, None)]
    ensures forall x :: x in SetState(s, i, Idle).streams <==> x in s.streams && s.seps[i].stream != Some(x)
  {
    var s' := SetState(s, i, Idle);
    assert SepOk(s, i);
    if s.seps[i].stream.Some? {
      var id := s.seps[i].stream.value;
      WithoutMembers(s.streams, id);
      IdleLinks(s, i, id);
    } else {
      assert s' == s;
    }
  }

  lemma IdleLinks(s: State, i: nat, id: nat)
    requires Inv(s) && i < |s.seps| && s.seps[i].stream == Some(id) && id in s.streams
    requires forall x :: x in Without(s.streams, id) <==> x in s.streams && x != id
    ensures var s' := SetState(s, i, Idle);
            && (forall j :: 0 <= j < |s'.seps| ==> SepOk(s', j)) && (forall x :: x in s'.streams ==> Linked(s', x))
  {
    var s' := SetState(s, i, Idle);
    forall j | 0 <= j < |s'.seps|
      ensures SepOk(s', j)
    {
      assert SepOk(s, j) && SepOk(s, i);
    }
    forall x | x in s'.streams
      ensures Linked(s', x)
    {
      assert Linked(s, x) && SepOk(s, i);
    }
  }

  /** Any other change of state of an end point that has a stream. */
  lemma BusyInv(s: State, i: nat, state: SepState)
    requires Inv(s) && i < |s.seps| && s.seps[i].stream.Some? && state != Idle
    requires state in {Open, Streaming} ==> s.seps[i].stream.value in s.heap && s.heap[s.seps[i].stream.value].connected
    requires s.pendingOpen == s.seps[i].stream ==> state == Aborting
    ensures Inv(SetState(s, i, state))
  {
    var s' := SetState(s, i, state);
    forall j | 0 <= j < |s'.seps|
      ensures SepOk(s', j)
    {
      assert SepOk(s, j);
    }
    forall x | x in s'.streams
      ensures Linked(s', x)
    {
      assert Linked(s, x);
    }
  }

  lemma SetConfigurationInv(s: State, acp: nat, int_: nat, good: bool, agreed: bool)
    requires Inv(s) && s.up
    ensures Inv(SetConfiguration(s, acp, int_, good, agreed).s)
  {
    var i, s' := FindSep(s.seps, acp), SetConfiguration(s, acp, int_, good, agreed).s;
    if s' != s {
      assert s.nextAddr !in s.streams by {
        assert s.nextAddr in s.streams ==> Linked(s, s.nextAddr);
      }
      forall j | 0 <= j < |s'.seps|
        ensures SepOk(s', j)
      {
        assert SepOk(s, j);
      }
      forall x | x in s'.streams
        ensures Linked(s', x)
      {
        assert x != s.nextAddr ==> Linked(s, x);
        assert SepOk(s, i);
      }
    }
  }

  /** Changing only what a stream record says about its transport. */
  lemma HeapInv(s: State, id: nat, t: Stream, pending: Option<nat>)
    requires Inv(s) && id in s.heap && t.lsep == s.heap[id].lsep && (s.heap[id].connected ==> t.connected)
    requires pending.Some? ==> PendingOk(s.(heap := s.heap[id := t]), pending.value)
    ensures Inv(s.(heap := s.heap[id := t], pendingOpen := pending))
  {
    var s' := s.(heap := s.heap[id := t], pendingOpen := pending);
    forall j | 0 <= j < |s'.seps|
      ensures SepOk(s', j)
    {
      assert SepOk(s, j);
    }
    forall x | x in s'.streams
      ensures Linked(s', x)
    {
      assert Linked(s, x);
    }
  }

  lemma OpenCmdInv(s: State, seid: nat, agreed: bool)
    requires Inv(s)
    ensures Inv(OpenCmd(s, seid, agreed).s)
  {
    var i, s' := FindSep(s.seps, seid), OpenCmd(s, seid, agreed).s;
    if s' != s {
      var id := s.seps[i].stream.value;
      assert SepOk(s, i);
      HeapInv(s, id, s.heap[id].(openAcp := true), Some(id));
    }
  }

  lemma {:induction false} ShiftAllInv(s: State, seid: nat, count: nat, from: SepState, to: SepState, agreed: bool)
    requires Inv(s) && from in {Open, Streaming} && to in {Open, Streaming}
    ensures Inv(ShiftAll(s, seid, count, from, to, agreed).s)
    decreases count
  {
    if count > 0 {
      var i, o := FindSep(s.seps, seid), Shift(s, seid, from, to, agreed);
      if o.answer == Accept {
        assert SepOk(s, i);
        BusyInv(s, i, to);
        ShiftAllInv(o.s, seid, count - 1, from, to, agreed);
      }
    }
  }

  lemma CloseCmdInv(s: State, seid: nat, agreed: bool)
    requires Inv(s)
    ensures Inv(CloseCmd(s, seid, agreed).s)
  {
    var i := FindSep(s.seps, seid);
    if CloseCmd(s, seid, agreed).answer == Accept {
      assert SepOk(s, i);
      BusyInv(s, i, Closing);
    }
  }

  lemma HandleInv(s: State, c: Command, agreed: bool)
    requires Inv(s) && s.up
    ensures Inv(Handle(s, c, agreed).s)
  {
    hide Inv, SetState, ShiftAll;
    match c {
      case SetConf(acp, int_, good) => SetConfigurationInv(s, acp, int_, good, agreed);
      case OpenReq(seid) => OpenCmdInv(s, seid, agreed);
      case StartReq(seid, n) => ShiftAllInv(s, seid, n, Open, Streaming, agreed);
      case SuspendReq(seid, n) => ShiftAllInv(s, seid, n, Streaming, Open, agreed);
      case CloseReq(seid) => CloseCmdInv(s, seid, agreed);
      case AbortReq(seid) =>
        var i := FindSep(s.seps, seid);
        if i < |s.seps| && s.seps[i].stream.Some? {
          BusyInv(s, i, Aborting);
        }
      case Malformed =>
    }
  }

  lemma TransportConnectedInv(s: State)
    requires Inv(s)
    ensures Inv(TransportConnected(s))
  {
    if TransportConnected(s) != s {
      var id := s.pendingOpen.value;
      var t := s.heap[id].(connected := true);
      assert Linked(s, id) && SepOk(s, t.lsep);
      HeapInv(s, id, t, None);
      BusyInv(s.(heap := s.heap[id := t], pendingOpen := None), t.lsep, Open);
    }
  }

  lemma OpenTimedOutInv(s: State, id: nat, sendOk: bool)
    requires Inv(s)
    ensures Inv(OpenTimedOut(s, id, sendOk))
  {
    if OpenTimedOut(s, id, sendOk) != s {
      var s1, i := s.(pendingOpen := None), s.heap[id].lsep;
      assert s1 == s.(heap := s.heap[id := s.heap[id]], pendingOpen := None);
      HeapInv(s, id, s.heap[id], None);
      assert Linked(s, id) && SepOk(s, i);
      if s.seps[i].state !in {Idle, Configured, Open} {
        BusyInv(s1, i, Aborting);
      }
    }
  }

  /** Releasing keeps the invariant, and every stream named is gone from the session afterwards. */
  lemma {:induction false} ReleasedInv(s: State, ids: seq<nat>)
    requires Inv(s)
    ensures Inv(Released(s, ids)) && |Released(s, ids).seps| == |s.seps|
    ensures forall x :: x in Released(s, ids).streams ==> x in s.streams && x !in ids
    decreases |ids|
  {
    if ids != [] {
      var id := ids[0];
      if id in s.heap && s.heap[id].lsep < |s.seps| {
        assert Linked(s, id);
        IdleInv(s, s.heap[id].lsep);
        ReleasedInv(SetState(s, s.heap[id].lsep, Idle), ids[1..]);
      } else {
        ReleasedInv(s, ids[1..]);
        assert id in s.streams ==> Linked(s, id);
      }
    }
  }

  /** After the connection is lost every end point is idle and unlinked, and no stream is left. */
  lemma ConnectionLostClears(s: State)
    requires Inv(s)
    ensures var s' := ConnectionLost(s);
            && Inv(s') && !s'.up && s'.streams == [] && s'.heap == map[] && s'.pendingOpen.None?
            && |s'.seps| == |s.seps|
            && forall i :: 0 <= i < |s'.seps| ==> s'.seps[i].state == Idle && s'.seps[i].stream.None?
  {
    var s1, s' := Released(s, s.streams), ConnectionLost(s);
    assert s1.streams != [] ==> s1.streams[0] in s1.streams;
    ReleasedInv(s, s.streams);
    assert s1.streams == [];
    forall i | 0 <= i < |s'.seps|
      ensures s'.seps[i].state == Idle && s'.seps[i].stream.None? && SepOk(s', i)
    {
      assert SepOk(s1, i);
    }
  }

  lemma TransportClosedInv(s: State, id: nat)
    requires Inv(s)
    ensures Inv(TransportClosed(s, id))
  {
    if id in s.heap && s.heap[id].lsep < |s.seps| {
      IdleInv(s, s.heap[id].lsep);
    }
  }

  /** Every event keeps the invariant. */
  lemma InvNext(s: State, e: Event)
    requires Inv(s)
    ensures Inv(Next(s, e))
  {
    hide Handle, ConnectionLost, TransportConnected, TransportClosed, OpenTimedOut;
    match e {
      case Cmd(c, agreed, sendOk) =>
        ConnectionLostClears(s);
        if s.up && !c.Malformed? {
          HandleInv(s, c, agreed);
          ConnectionLostClears(Handle(s, c, agreed).s);
        }
      case Transport => TransportConnectedInv(s);
      case Hangup(id) => TransportClosedInv(s, id);
      case OpenTimer(id, sent) => OpenTimedOutInv(s, id, sent);
      case Disconnect => ConnectionLostClears(s);
      case Reconnect => UpInv(s);
    }
  }

  lemma UpInv(s: State)
    requires Inv(s)
    ensures Inv(s.(up := true))
  {
    var s' := s.(up := true);
    forall i | 0 <= i < |s.seps|
      ensures SepOk(s', i)
    {
      assert SepOk(s, i);
    }
    forall x | x in s.streams
      ensures Linked(s', x)
    {
      assert Linked(s, x);
    }
  }

  ghost function After(s: State, events: seq<Event>): State
    decreases |events|
  {
    if events == [] then s else After(Next(s, events[0]), events[1..])
  }

  /** Safety over every run of commands, answers that fail to go out, transport channels coming and going, timers and
      lost connections: a local end point is busy exactly when it has a stream, that stream is in the session's list
      once and points back to the end point, and an end point that is open or streaming has a connected transport. */
  lemma {:induction false} EveryRun(s: State, events: seq<Event>)
    requires Inv(s)
    ensures Inv(After(s, events))
    decreases |events|
  {
    if events != [] {
      InvNext(s, events[0]);
      EveryRun(Next(s, events[0]), events[1..]);
    }
  }

  // ---- what each command does ----

  /** End point i is the first with the id, or there is none and i is their number. */
  ghost predicate Names(seps: seq<Sep>, seid: nat, i: nat) {
    i <= |seps| && (i < |seps| ==> seps[i].seid == seid) && forall j :: 0 <= j < i ==> seps[j].seid != seid
  }

  lemma {:induction false} NamesFound(seps: seq<Sep>, seid: nat, i: nat)
    requires Names(seps, seid, i)
    ensures FindSep(seps, seid) == i
    decreases |seps|
  {
    if i > 0 {
      assert seps[0].seid != seid;
      forall j | 0 <= j < i - 1
        ensures seps[1..][j].seid != seid
      {
        assert seps[1..][j] == seps[j + 1];
      }
      NamesFound(seps[1..], seid, i - 1);
    }
  }

  /** Only the state of end point i changes. */
  ghost predicate Moved(s: State, s': State, i: nat, state: SepState)
    requires i < |s.seps|
  {
    s' == s.(seps := s.seps[i := Sep(s.seps[i].seid, state, s.seps[i].stream)])
  }

  /** Set configuration: an idle end point, good capabilities and the application's consent give it a new stream, not yet
      connected, and nothing else changes. */
  lemma SetConfigurationIs(s: State, seid: nat, rseid: nat, good: bool, agreed: bool, i: nat)
    requires Inv(s) && Names(s.seps, seid, i)
    ensures var o := Handle(s, SetConf(seid, rseid, good), agreed); var id := s.nextAddr;
            && o.answer == (if i == |s.seps| then Reject(0x12) else if s.seps[i].state != Idle then Reject(0x13)
                            else if !good then Reject(0x23) else if !agreed then Refused else Accept)
            && (o.answer != Accept ==> o.s == s)
            && (o.answer == Accept ==>
                  && id !in s.heap && o.s.seps == s.seps[i := Sep(seid, Configured, Some(id))]
                  && o.s.heap == s.heap[id := Stream(i, rseid, false, false)] && o.s.streams == s.streams + [id]
                  && o.s.pendingOpen == s.pendingOpen && o.s.up == s.up)
  {
    NamesFound(s.seps, seid, i);
    assert s.nextAddr in s.heap ==> Linked(s, s.nextAddr);
    if i < |s.seps| {
      assert SepOk(s, i);
    }
  }

  /** Open: a configured end point stays configured, and its stream is the one whose transport is awaited. */
  lemma OpenIs(s: State, seid: nat, agreed: bool, i: nat)
    requires Inv(s) && Names(s.seps, seid, i)
    ensures var o := Handle(s, OpenReq(seid), agreed);
            && o.answer == (if i == |s.seps| then Reject(0x12) else if s.seps[i].state != Configured then Reject(0x31)
                            else if !agreed then Refused else Accept)
            && (o.answer != Accept ==> o.s == s)
            && (o.answer == Accept ==>
                  && s.seps[i].stream.Some? && s.seps[i].stream.value in s.heap
                  && var id := s.seps[i].stream.value; var t := s.heap[id];
                  && o.s == s.(heap := s.heap[id := Stream(t.lsep, t.rseid, t.connected, true)], pendingOpen := Some(id)))
  {
    NamesFound(s.seps, seid, i);
    if i < |s.seps| {
      assert SepOk(s, i);
    }
  }

  /** Start: the first end point named goes from open to streaming. With one named that is accepted; anything else is
      answered by a refusal, sent with the message type of an acceptance. */
  lemma StartIs(s: State, seid: nat, count: nat, agreed: bool, i: nat)
    requires Inv(s) && Names(s.seps, seid, i) && count > 0
    ensures var o, ok := Handle(s, StartReq(seid, count), agreed), i < |s.seps| && s.seps[i].state == Open && agreed;
            && o.answer == (if ok && count == 1 then Accept else AcceptReject)
            && (if ok then Moved(s, o.s, i, Streaming) else o.s == s)
  {
    NamesFound(s.seps, seid, i);
    ShiftAllIs(s, seid, count, Open, Streaming, agreed);
    if i < |s.seps| {
      assert SepOk(s, i);
    }
  }

  /** Suspend: the first end point named goes from streaming to open; a second one is refused for its state. */
  lemma SuspendIs(s: State, seid: nat, count: nat, agreed: bool, i: nat)
    requires Inv(s) && Names(s.seps, seid, i) && count > 0
    ensures var o := Handle(s, SuspendReq(seid, count), agreed);
            && o.answer == (if i == |s.seps| || s.seps[i].state == Idle then Reject(0x12)
                            else if s.seps[i].state != Streaming then Reject(0x31)
                            else if !agreed then Refused else if count == 1 then Accept else Reject(0x31))
            && (if i < |s.seps| && s.seps[i].state == Streaming && agreed then Moved(s, o.s, i, Open) else o.s == s)
  {
    NamesFound(s.seps, seid, i);
    ShiftAllIs(s, seid, count, Streaming, Open, agreed);
    if i < |s.seps| {
      assert SepOk(s, i);
    }
  }

  /** Close: an open or streaming end point starts closing. */
  lemma CloseIs(s: State, seid: nat, agreed: bool, i: nat)
    requires Inv(s) && Names(s.seps, seid, i)
    ensures var o := Handle(s, CloseReq(seid), agreed);
            && o.answer == (if i == |s.seps| || s.seps[i].state == Idle then Reject(0x12)
                            else if s.seps[i].state !in {Open, Streaming} then Reject(0x31)
                            else if !agreed then Refused else Accept)
            && (if o.answer == Accept then Moved(s, o.s, i, Closing) else o.s == s)
  {
    NamesFound(s.seps, seid, i);
    if i < |s.seps| {
      assert SepOk(s, i);
    }
  }

  /** Abort: any busy end point starts aborting. */
  lemma AbortIs(s: State, seid: nat, agreed: bool, i: nat)
    requires Inv(s) && Names(s.seps, seid, i)
    ensures var o := Handle(s, AbortReq(seid), agreed);
            && o.answer == (if i == |s.seps| || s.seps[i].state == Idle then Reject(0x12)
                            else if !agreed then Refused else Accept)
            && (if o.answer == Accept then Moved(s, o.s, i, Aborting) else o.s == s)
  {
    NamesFound(s.seps, seid, i);
    if i < |s.seps| {
      assert SepOk(s, i);
    }
  }

  /** A command is answered only on a connected session; if the answer goes out the command takes effect, and otherwise,
      or if the command is malformed, the connection is lost with all it held. */
  lemma CommandIs(s: State, c: Command, agreed: bool, sendOk: bool)
    requires Inv(s)
    ensures var s' := Next(s, Cmd(c, agreed, sendOk));
            if !s.up then s' == s
            else if sendOk && c != Malformed then s' == Handle(s, c, agreed).s
            else && !s'.up && s'.streams == [] && s'.heap == map[] && s'.pendingOpen.None?
                 && forall i :: 0 <= i < |s'.seps| ==> s'.seps[i].state == Idle && s'.seps[i].stream.None?
  {
    hide Handle, ConnectionLost, Inv;
    ConnectionLostClears(s);
    if s.up {
      HandleInv(s, c, agreed);
      ConnectionLostClears(Handle(s, c, agreed).s);
    }
  }

  /** Losing the signalling channel clears everything; getting one clears nothing. */
  lemma LinkIs(s: State)
    requires Inv(s)
    ensures var s' := Next(s, Disconnect);
            && !s'.up && s'.streams == [] && s'.heap == map[] && s'.pendingOpen.None? && |s'.seps| == |s.seps|
            && forall i :: 0 <= i < |s'.seps| ==> s'.seps[i] == Sep(s.seps[i].seid, Idle, None)
    ensures Next(s, Reconnect) == s.(up := true)
  {
    ConnectionLostClears(s);
    forall i | 0 <= i < |s.seps|
      ensures |ConnectionLost(s).seps| == |s.seps| && ConnectionLost(s).seps[i].seid == s.seps[i].seid
    {
      LostSeids(s, i);
    }
  }

  /** An incoming transport channel connects the stream that was awaited, and opens its end point. */
  lemma TransportIs(s: State)
    requires Inv(s)
    ensures s.pendingOpen.None? ==> Next(s, Transport) == s
    ensures s.pendingOpen.Some? ==>
              && var id := s.pendingOpen.value;
              && id in s.heap && var t := s.heap[id];
              && t.lsep < |s.seps|
              && Moved(s.(heap := s.heap[id := Stream(t.lsep, t.rseid, true, t.openAcp)], pendingOpen := None),
                       Next(s, Transport), t.lsep, Open)
  {
    if s.pendingOpen.Some? {
      assert PendingOk(s, s.pendingOpen.value);
    }
  }

  /** A transport channel that goes away takes its stream with it: the end point is idle, the stream nowhere left, and
      everything else as before. */
  lemma HangupIs(s: State, id: nat)
    requires Inv(s)
    ensures id !in s.heap || !s.heap[id].connected ==> Next(s, Hangup(id)) == s
    ensures id in s.heap && s.heap[id].connected ==>
              && var s', i := Next(s, Hangup(id)), s.heap[id].lsep;
              && i < |s.seps| && s'.seps == s.seps[i := Sep(s.seps[i].seid, Idle, None)] && s'.heap == s.heap - {id}
              && (forall x :: x in s'.streams <==> x in s.streams && x != id)
              && s'.pendingOpen == (if s.pendingOpen == Some(id) then None else s.pendingOpen) && s'.up == s.up
  {
    if id in s.heap && s.heap[id].connected {
      assert Linked(s, id);
      IdleInv(s, s.heap[id].lsep);
    }
  }

  /** The open timer of a stream that is still without a transport: nothing is awaited any more, and the end point is
      aborted unless it is still merely configured or the abort cannot be sent. */
  lemma OpenTimerIs(s: State, id: nat, sent: bool)
    requires Inv(s)
    ensures id !in s.heap || !s.heap[id].openAcp || s.heap[id].connected ==> Next(s, OpenTimer(id, sent)) == s
    ensures id in s.heap && s.heap[id].openAcp && !s.heap[id].connected ==>
              && var s', i := Next(s, OpenTimer(id, sent)), s.heap[id].lsep;
              && i < |s.seps|
              && Moved(s.(pendingOpen := None), s', i,
                       if sent && s.seps[i].state != Configured then Aborting else s.seps[i].state)
  {
    if id in s.heap {
      assert Linked(s, id) && SepOk(s, s.heap[id].lsep);
    }
  }

  // ---- what a single step can do ----

  /** The changes of state an end point can see in one step. */
  predicate Legal(before: SepState, after: SepState) {
    || after == before || after == Idle
    || match before
       case Idle => after == Configured
       case Configured => after in {Open, Aborting}
       case Open => after in {Streaming, Closing, Aborting}
       case Streaming => after in {Open, Closing, Aborting}
       case Closing => after == Aborting
       case Aborting => after == Open
  }

  /** From a busy state an end point only ever gets to Open, Streaming, Closing, Aborting or Idle along the arrows of the
      state machine; an aborted one can still become open if the transport it was waiting for comes late. */
  lemma StepsAreLegal(s: State, e: Event, i: nat)
    requires Inv(s) && i < |s.seps|
    ensures |Next(s, e).seps| == |s.seps| && Next(s, e).seps[i].seid == s.seps[i].seid
    ensures Legal(s.seps[i].state, Next(s, e).seps[i].state)
  {
    hide Handle, ConnectionLost;
    match e {
      case Cmd(c, agreed, sendOk) =>
        LostSeids(s, i);
        if s.up && !c.Malformed? {
          HandleLegal(s, c, agreed, i);
          HandleInv(s, c, agreed);
          LostSeids(Handle(s, c, agreed).s, i);
        }
      case Transport =>
        if s.pendingOpen.Some? {
          assert PendingOk(s, s.pendingOpen.value);
        }
      case Hangup(id) =>
      case OpenTimer(id, sent) =>
      case Disconnect => LostSeids(s, i);
      case Reconnect =>
    }
  }

  lemma LostSeids(s: State, i: nat)
    requires Inv(s) && i < |s.seps|
    ensures |ConnectionLost(s).seps| == |s.seps|
    ensures ConnectionLost(s).seps[i].seid == s.seps[i].seid && ConnectionLost(s).seps[i].state == Idle
  {
    ConnectionLostClears(s);
    ReleasedSeids(s, s.streams, i);
  }

  lemma {:induction false} ReleasedSeids(s: State, ids: seq<nat>, i: nat)
    requires i < |s.seps|
    ensures |Released(s, ids).seps| == |s.seps| && Released(s, ids).seps[i].seid == s.seps[i].seid
    decreases |ids|
  {
    if ids != [] {
      if ids[0] !in s.heap || s.heap[ids[0]].lsep >= |s.seps| {
        ReleasedSeids(s, ids[1..], i);
      } else {
        ReleasedSeids(SetState(s, s.heap[ids[0]].lsep, Idle), ids[1..], i);
      }
    }
  }

  /** Naming several end points never succeeds: the loop looks up the first one again and finds it already moved. */
  lemma ShiftAllIs(s: State, seid: nat, count: nat, from: SepState, to: SepState, agreed: bool)
    requires count > 0 && from != to && to != Idle
    ensures var o, first := ShiftAll(s, seid, count, from, to, agreed), Shift(s, seid, from, to, agreed);
            && o.s == first.s && (o.answer == Accept <==> count == 1 && first.answer == Accept)
            && o.answer == (if count > 1 && first.answer == Accept then Reject(BAD_STATE) else first.answer)
  {
    var first := Shift(s, seid, from, to, agreed);
    if count > 1 && first.answer == Accept {
      SameSep(s.seps, FindSep(s.seps, seid), seid, to);
      assert ShiftAll(first.s, seid, count - 1, from, to, agreed) == Shift(first.s, seid, from, to, agreed);
    }
  }

  lemma {:induction false} SameSep(seps: seq<Sep>, i: nat, seid: nat, state: SepState)
    requires i == FindSep(seps, seid) < |seps|
    ensures FindSep(seps[i := seps[i].(state := state)], seid) == i
  {
    if i > 0 {
      SameSep(seps[1..], i - 1, seid, state);
      assert seps[i := seps[i].(state := state)][1..] == seps[1..][i - 1 := seps[i].(state := state)];
    }
  }

  lemma HandleLegal(s: State, c: Command, agreed: bool, i: nat)
    requires Inv(s) && i < |s.seps|
    ensures var s' := Handle(s, c, agreed).s;
            |s'.seps| == |s.seps| && s'.seps[i].seid == s.seps[i].seid && Legal(s.seps[i].state, s'.seps[i].state)
  {
    hide ShiftAll;
    assert SepOk(s, i);
    if c.StartReq? && c.count > 0 {
      ShiftAllIs(s, c.seid, c.count, Open, Streaming, agreed);
    } else if c.SuspendReq? && c.count > 0 {
      ShiftAllIs(s, c.seid, c.count, Streaming, Open, agreed);
    } else if c.StartReq? || c.SuspendReq? {
      NothingNamed(s, c.seid, agreed);
    }
  }

  lemma NothingNamed(s: State, seid: nat, agreed: bool)
    ensures ShiftAll(s, seid, 0, Open, Streaming, agreed).s == s && ShiftAll(s, seid, 0, Streaming, Open, agreed).s == s
  {
  }

  /** Registered end points, no session yet. */
  lemma InitialInv(seps: seq<Sep>)
    requires forall i :: 0 <= i < |seps| ==> seps[i].state == Idle && seps[i].stream.None?
    ensures Inv(State(seps, map[], [], None, 0, false))
  {
  }
}

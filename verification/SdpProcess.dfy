/** sdp_process: split responses put together across continuation requests (section 4.3 of volume 3, part B of the
    Bluetooth Core Specification). */
module SdpProcess {
  import opened Bytes

  const ERROR_RSP: byte := 0x01
  const SVC_SEARCH_RSP: byte := 0x03
  const SVC_ATTR_RSP: byte := 0x05
  const SVC_SEARCH_ATTR_RSP: byte := 0x07

  const HDR_SIZE := 5
  const REQ_BUFFER_SIZE := 2048
  const FAILED := 0xffff

  /** What the caller is told when the transaction ends. */
  datatype Callback = Callback(pduId: byte, status: nat, data: seq<byte>)

  /** struct sdp_transaction and its session: the request without continuation state, the next transaction id, the
      response octets so far, and what went out to the socket and to the caller. */
  datatype State = State(req: seq<byte>, tid: nat, concat: seq<byte>, sent: seq<seq<byte>>, calls: seq<Callback>)

  /** Octets of the response buffer, which is zero beyond the response. */
  function At(rsp: seq<byte>, i: nat): byte {
    if i < |rsp| then rsp[i] else 0
  }

  function U16(rsp: seq<byte>, i: nat): nat {
    FromBE([At(rsp, i), At(rsp, i + 1)])
  }

  function Slice(rsp: seq<byte>, from: nat, len: nat): (s: seq<byte>)
    ensures |s| == len
  {
    (rsp + Zeros(from + len))[from..from + len]
  }

  function Zeros(n: nat): (s: seq<byte>)
    ensures |s| == n
  {
    if n == 0 then [] else [0] + Zeros(n - 1)
  }

  /** Where the payload of a response lies and how long the parameters before the continuation state are; the
      accumulated octets change when the count of a later search fragment is added to the first one's. */
  datatype Layout = Layout(from: nat, count: nat, plen: nat, concat: seq<byte>)

  /** The 16-bit addition the source does on network-order values without swapping them: low octet first. */
  function AddUnswapped(a: seq<byte>, b: seq<byte>): (r: seq<byte>)
    requires |a| == |b| == 2
    ensures |r| == 2
  {
    var v := (Unswapped(a) + Unswapped(b)) % 0x1_0000;
    [v % 256, v / 256]
  }

  function Unswapped(a: seq<byte>): nat
    requires |a| == 2
  {
    var lo: nat, hi: nat := a[0], a[1];
    lo + 256 * hi
  }

  /** A first search fragment leaves at least its two counts, so fewer octets mean none. */
  function SearchLayout(concat: seq<byte>, rsp: seq<byte>): Layout {
    var csrc := U16(rsp, 7);
    if |concat| < 4 then Layout(5, 4 + csrc * 4, 4 + csrc * 4, concat)
    else
      Layout(9, csrc * 4, 4 + csrc * 4,
             concat[..2] + AddUnswapped(concat[2..4], [At(rsp, 7), At(rsp, 8)]) + concat[4..])
  }

  function AttrLayout(concat: seq<byte>, rsp: seq<byte>): Layout {
    Layout(7, U16(rsp, 5), 2 + U16(rsp, 5), concat)
  }

  /** The transaction ends: the caller gets what was accumulated, else `data`. */
  function Finish(s: State, pduId: byte, status: nat, data: seq<byte>): State {
    s.(calls := s.calls + [Callback(pduId, status, if s.concat != [] then s.concat else data)])
  }

  /** copy_cstate: a continuation state that does not fit is cut. */
  function CopiedCstate(room: int, cstate: seq<byte>): seq<byte>
    requires room > 0 && |cstate| < 256
  {
    var len := if |cstate| >= room then room - 1 else |cstate|;
    [len % 256] + cstate[..len]
  }

  /** The request with a new transaction id and parameter length. */
  function Rehead(req: seq<byte>, tid: nat, plen: nat): seq<byte>
    requires |req| >= HDR_SIZE
  {
    [req[0]] + BE(2, tid) + BE(2, plen) + req[HDR_SIZE..]
  }

  /** A well-placed response: its payload is accumulated, and either the transaction ends or the next part is asked for. */
  function Accumulate(s: State, rsp: seq<byte>, l: Layout, cstate: seq<byte>): State
    requires HDR_SIZE <= |s.req| < REQ_BUFFER_SIZE && |cstate| < 256
  {
    var s1 := s.(concat := l.concat + Slice(rsp, l.from, l.count));
    if cstate == [] then Finish(s1, At(rsp, 0), 0, [])
    else
      var tail := CopiedCstate(REQ_BUFFER_SIZE - |s.req|, cstate);
      var req := Rehead(s.req, s.tid, |s.req| + |tail| - HDR_SIZE);
      s1.(req := req, tid := (s.tid + 1) % 0x1_0000, sent := s.sent + [req + tail])
  }

  /** sdp_process on a response that could be read. */
  function Process(s: State, rsp: seq<byte>): State
    requires HDR_SIZE <= |s.req| < REQ_BUFFER_SIZE
  {
    if |rsp| == 0 || s.req[1..3] != [At(rsp, 1), At(rsp, 2)] || |rsp| != U16(rsp, 3) + HDR_SIZE then
      Finish(s, 0, FAILED, [])
    else if rsp[0] == ERROR_RSP then Finish(s, rsp[0], U16(rsp, 5), rsp[HDR_SIZE..])
    else if rsp[0] == SVC_SEARCH_RSP && U16(rsp, 7) > U16(rsp, 5) then Finish(s, rsp[0], FAILED, [])
    else if rsp[0] != SVC_SEARCH_RSP && rsp[0] != SVC_ATTR_RSP && rsp[0] != SVC_SEARCH_ATTR_RSP then
      Finish(s, rsp[0], FAILED, [])
    else
      var l := if rsp[0] == SVC_SEARCH_RSP then SearchLayout(s.concat, rsp) else AttrLayout(s.concat, rsp);
      var clen := At(rsp, l.from + l.count);
      if |rsp| - HDR_SIZE != l.plen + clen + 1 then Finish(s.(concat := l.concat), rsp[0], FAILED, [])
      else Accumulate(s, rsp, l, Slice(rsp, l.from + l.count + 1, clen))
  }

  /** What is accumulated does not depend on the parameter length. */
  lemma SameLayout(s: State, rsp: seq<byte>, from: nat, count: nat, plen: nat, clen: byte)
    requires HDR_SIZE <= |s.req| < REQ_BUFFER_SIZE
    ensures var c := Slice(rsp, from + count + 1, clen);
            forall concat: seq<byte> ::
              Accumulate(s.(concat := concat), rsp, Layout(from, count, plen, s.concat), c)
              == Accumulate(s, rsp, Layout(from, count, 0, s.concat), c)
  {
    hide Slice;
  }

  class Transaction {
    var req: seq<byte>
    var tid: nat
    var concat: seq<byte>
    var sent: seq<seq<byte>>
    var calls: seq<Callback>

    ghost function Abstract(): State
      reads this
    {
      State(req, tid, concat, sent, calls)
    }

    ghost predicate Valid()
      reads this
    {
      HDR_SIZE <= |req| < REQ_BUFFER_SIZE
    }

    constructor (req: seq<byte>, tid: nat)
      requires HDR_SIZE <= |req| < REQ_BUFFER_SIZE
      ensures Valid() && Abstract() == State(req, tid, [], [], [])
    {
      this.req, this.tid, concat, sent, calls := req, tid, [], [], [];
    }

    method End(pduId: byte, status: nat, data: seq<byte>)
      modifies this`calls
      ensures Abstract() == Finish(old(Abstract()), pduId, status, data)
    {
      var pdata := data;
      if |concat| != 0 {
        pdata := concat;
      }
      calls := calls + [Callback(pduId, status, pdata)];
    }

    /** Returns whether the transaction goes on. */
    method OnResponse(rsp: seq<byte>) returns (more: bool)
      requires Valid()
      modifies this
      ensures Valid() && Abstract() == Process(old(Abstract()), rsp)
      ensures more <==> |calls| == |old(calls)|
    {
      hide At, U16, Slice, AddUnswapped, FromBE, Accumulate;
      more := false;
      if |rsp| == 0 || req[1..3] != [At(rsp, 1), At(rsp, 2)] || |rsp| != U16(rsp, 3) + HDR_SIZE {
        End(0, FAILED, []);
        return;
      }
      var pduId := rsp[0];
      var from, count, plen;
      if pduId == SVC_SEARCH_RSP {
        var tsrc, csrc := U16(rsp, 5), U16(rsp, 7);
        if csrc > tsrc {
          End(pduId, FAILED, []);
          return;
        }
        plen := 4 + csrc * 4;
        if |concat| < 4 {
          from, count := 5, 4 + csrc * 4;
        } else {
          concat := concat[..2] + AddUnswapped(concat[2..4], [At(rsp, 7), At(rsp, 8)]) + concat[4..];
          from, count := 9, csrc * 4;
        }
      } else if pduId == SVC_ATTR_RSP || pduId == SVC_SEARCH_ATTR_RSP {
        count := U16(rsp, 5);
        plen, from := 2 + count, 7;
      } else {
        if pduId == ERROR_RSP {
          End(pduId, U16(rsp, 5), rsp[HDR_SIZE..]);
        } else {
          End(pduId, FAILED, []);
        }
        return;
      }
      var clen := At(rsp, from + count);
      if |rsp| - HDR_SIZE != plen + clen + 1 {
        End(pduId, FAILED, []);
        return;
      }
      SameLayout(Abstract(), rsp, from, count, plen, clen);
      more := Gather(rsp, from, count, clen);
    }

    method Gather(rsp: seq<byte>, from: nat, count: nat, clen: byte) returns (more: bool)
      requires Valid() && |rsp| > 0
      modifies this
      ensures Valid()
      ensures Abstract() == Accumulate(old(Abstract()), rsp, Layout(from, count, 0, old(concat)),
                                       Slice(rsp, from + count + 1, clen))
      ensures more <==> |calls| == |old(calls)|
    {
      concat := concat + Slice(rsp, from, count);
      var cstate := Slice(rsp, from + count + 1, clen);
      if clen == 0 {
        End(rsp[0], 0, []);
        return false;
      }
      var tail := CopiedCstate(REQ_BUFFER_SIZE - |req|, cstate);
      req := Rehead(req, tid, |req| + |tail| - HDR_SIZE);
      tid := (tid + 1) % 0x1_0000;
      sent := sent + [req + tail];
      more := true;
    }
  }

  // ---- whole responses ----

  /** One part of a split response: attribute list octets, or a search result with its total, its own count and its
      handles; then the continuation state, empty in the last part. */
  datatype Part =
    | Attrs(payload: seq<byte>, cstate: seq<byte>)
    | Found(total: nat, count: nat, handles: seq<byte>, cstate: seq<byte>)

  function Parameters(p: Part): seq<byte> {
    match p
    case Attrs(payload, _) => BE(2, |payload|) + payload
    case Found(total, count, handles, _) => BE(2, total) + BE(2, count) + handles
  }

  /** The response PDU that carries a part. */
  function Response(id: byte, tid: seq<byte>, p: Part): seq<byte>
    requires |tid| == 2 && |p.cstate| < 256
  {
    [id] + tid + BE(2, |Parameters(p)| + 1 + |p.cstate|) + Parameters(p) + [|p.cstate|] + p.cstate
  }

  /** A part that fits its PDU and its length fields, and whose continuation state fits the request buffer. */
  ghost predicate Fits(s: State, id: byte, p: Part) {
    && HDR_SIZE <= |s.req| && |s.req| + 1 + |p.cstate| <= REQ_BUFFER_SIZE
    && |p.cstate| < 256 && |Parameters(p)| + 1 + |p.cstate| + HDR_SIZE <= 65535
    && match p
       case Attrs(_, _) => id == SVC_ATTR_RSP || id == SVC_SEARCH_ATTR_RSP
       case Found(total, count, handles, _) =>
         id == SVC_SEARCH_RSP && count <= total < 0x1_0000 && |handles| == 4 * count && (s.concat == [] || |s.concat| >= 4)
  }

  /** The octets accumulated after a part. */
  function Accumulated(concat: seq<byte>, p: Part): seq<byte> {
    match p
    case Attrs(payload, _) => concat + payload
    case Found(total, count, handles, _) =>
      if |concat| < 4 then concat + Parameters(p)
      else concat[..2] + AddUnswapped(concat[2..4], BE(2, count)) + concat[4..] + handles
  }

  /** What one good part does: the last one ends the transaction with status 0 and everything accumulated; any other
      sends the original request again under a new transaction id with the continuation state behind it. */
  function Good(s: State, id: byte, p: Part): State
    requires HDR_SIZE <= |s.req| && |p.cstate| < 256
  {
    var concat := Accumulated(s.concat, p);
    if p.cstate == [] then s.(concat := concat, calls := s.calls + [Callback(id, 0, concat)])
    else
      var req := Rehead(s.req, s.tid, |s.req| + 1 + |p.cstate| - HDR_SIZE);
      s.(concat := concat, req := req, tid := (s.tid + 1) % 0x1_0000, sent := s.sent + [req + [|p.cstate|] + p.cstate])
  }

  lemma SliceIs(rsp: seq<byte>, from: nat, len: nat)
    requires from + len <= |rsp|
    ensures Slice(rsp, from, len) == rsp[from..from + len]
  {
    hide Zeros;
  }

  lemma U16Is(rsp: seq<byte>, i: nat, v: nat)
    requires i + 2 <= |rsp| && rsp[i..i + 2] == BE(2, v) && v < 0x1_0000
    ensures U16(rsp, i) == v && [At(rsp, i), At(rsp, i + 1)] == BE(2, v)
  {
    assert [At(rsp, i), At(rsp, i + 1)] == rsp[i..i + 2];
    Pow256Values();
    BERoundTrip(2, v);
  }

  /** The pieces of a response, by position. */
  lemma Pieces(id: byte, tid: seq<byte>, p: Part)
    requires |tid| == 2 && |p.cstate| < 256
    ensures var r, n := Response(id, tid, p), |Parameters(p)|;
            && |r| == HDR_SIZE + n + 1 + |p.cstate| && r[0] == id && r[1..3] == tid
            && r[3..5] == BE(2, n + 1 + |p.cstate|) && r[5..5 + n] == Parameters(p)
            && r[5 + n] == |p.cstate| && r[6 + n..] == p.cstate
  {
    hide BE, Parameters;
    var r, n := Response(id, tid, p), |Parameters(p)|;
    assert r[5 + n] == |p.cstate|;
  }

  /** Processing a response that carries a good part under the transaction id of the last request. */
  lemma GoodPart(s: State, id: byte, p: Part)
    requires Fits(s, id, p)
    ensures Process(s, Response(id, s.req[1..3], p)) == Good(s, id, p)
  {
    hide BE, FromBE, AddUnswapped;
    var r, n := Response(id, s.req[1..3], p), |Parameters(p)|;
    Pieces(id, s.req[1..3], p);
    HeaderRead(s, id, p);
    match p {
      case Attrs(payload, c) => AttrsPart(s, id, p);
      case Found(total, count, handles, c) => FoundPart(s, id, p);
    }
  }

  lemma HeaderRead(s: State, id: byte, p: Part)
    requires Fits(s, id, p)
    ensures var r := Response(id, s.req[1..3], p);
            s.req[1..3] == [At(r, 1), At(r, 2)] && |r| == U16(r, 3) + HDR_SIZE
  {
    hide BE, FromBE, Parameters, U16;
    var r := Response(id, s.req[1..3], p);
    Pieces(id, s.req[1..3], p);
    assert [At(r, 1), At(r, 2)] == r[1..3];
    U16Is(r, 3, |Parameters(p)| + 1 + |p.cstate|);
  }

  lemma AttrsPart(s: State, id: byte, p: Part)
    requires Fits(s, id, p) && p.Attrs?
    ensures Process(s, Response(id, s.req[1..3], p)) == Good(s, id, p)
  {
    hide BE, FromBE, U16, At, Slice;
    var r, n := Response(id, s.req[1..3], p), |p.payload|;
    Pieces(id, s.req[1..3], p);
    HeaderRead(s, id, p);
    assert r[5..7] == r[5..5 + |Parameters(p)|][..2] == BE(2, n);
    U16Is(r, 5, n);
    assert r[7..7 + n] == r[5..5 + |Parameters(p)|][2..] == p.payload;
    SliceIs(r, 7, n);
    Rest(r, id, 7 + n, p.cstate);
    SameTail(s.req, p.cstate);
  }

  lemma Rest(r: seq<byte>, id: byte, at: nat, cstate: seq<byte>)
    requires |r| == at + 1 + |cstate| && r[0] == id && |cstate| < 256 && r[at] == |cstate| && r[at + 1..] == cstate
    ensures At(r, 0) == id && At(r, at) == |cstate| && Slice(r, at + 1, |cstate|) == cstate
  {
    SliceIs(r, at + 1, |cstate|);
    assert r[at + 1..at + 1 + |cstate|] == r[at + 1..];
  }

  lemma SameTail(req: seq<byte>, cstate: seq<byte>)
    requires |req| + 1 + |cstate| <= REQ_BUFFER_SIZE && |cstate| < 256
    ensures CopiedCstate(REQ_BUFFER_SIZE - |req|, cstate) == [|cstate|] + cstate
    ensures forall r: seq<byte> :: r + ([|cstate|] + cstate) == r + [|cstate|] + cstate
  {
    assert cstate[..|cstate|] == cstate;
  }

  lemma FoundPart(s: State, id: byte, p: Part)
    requires Fits(s, id, p) && p.Found?
    ensures Process(s, Response(id, s.req[1..3], p)) == Good(s, id, p)
  {
    hide BE, FromBE, U16, At, Slice, AddUnswapped, Rehead, Response, CopiedCstate;
    var r, q := Response(id, s.req[1..3], p), Parameters(p);
    FoundPieces(s, id, p);
    HeaderRead(s, id, p);
    SameTail(s.req, p.cstate);
    assert [] + q == q;
  }

  lemma FoundPieces(s: State, id: byte, p: Part)
    requires Fits(s, id, p) && p.Found?
    ensures var r, n := Response(id, s.req[1..3], p), |Parameters(p)|;
            && n == 4 + 4 * p.count && |r| == HDR_SIZE + n + 1 + |p.cstate| && r[0] == id
            && U16(r, 5) == p.total && U16(r, 7) == p.count && [At(r, 7), At(r, 8)] == BE(2, p.count)
            && Slice(r, 5, n) == Parameters(p) && Slice(r, 9, 4 * p.count) == p.handles
            && At(r, 0) == id && At(r, 5 + n) == |p.cstate| && Slice(r, 6 + n, |p.cstate|) == p.cstate
  {
    hide BE, FromBE, U16, At, Slice;
    var r, n, q := Response(id, s.req[1..3], p), |Parameters(p)|, Parameters(p);
    Pieces(id, s.req[1..3], p);
    assert r[5..7] == q[..2] == BE(2, p.total) && r[7..9] == q[2..4] == BE(2, p.count) && r[9..5 + n] == q[4..] == p.handles;
    U16Is(r, 5, p.total);
    U16Is(r, 7, p.count);
    SliceIs(r, 5, n);
    SliceIs(r, 9, 4 * p.count);
    Rest(r, id, 5 + n, p.cstate);
  }

  // ---- runs of parts ----

  /** Every part but the last carries a continuation state. */
  ghost predicate Split(parts: seq<Part>) {
    parts != [] && forall i :: 0 <= i < |parts| ==> (parts[i].cstate == [] <==> i == |parts| - 1)
  }

  ghost predicate AllFit(s: State, id: byte, parts: seq<Part>)
    decreases |parts|
  {
    parts == [] || (Fits(s, id, parts[0]) && AllFit(Good(s, id, parts[0]), id, parts[1..]))
  }

  /** The server answers each request under its transaction id with the next part. */
  ghost function Run(s: State, id: byte, parts: seq<Part>): State
    requires AllFit(s, id, parts)
    decreases |parts|
  {
    if parts == [] then s
    else
      GoodPart(s, id, parts[0]);
      Run(Process(s, Response(id, s.req[1..3], parts[0])), id, parts[1..])
  }

  ghost function AccumulatedAll(concat: seq<byte>, parts: seq<Part>): seq<byte>
    decreases |parts|
  {
    if parts == [] then concat else AccumulatedAll(Accumulated(concat, parts[0]), parts[1..])
  }

  /** The follow-up requests: each is the original request with the last continuation state behind it, under
      consecutive transaction ids. */
  ghost function FollowUps(req: seq<byte>, tid: nat, parts: seq<Part>): seq<seq<byte>>
    requires |req| >= HDR_SIZE && forall i :: 0 <= i < |parts| ==> |parts[i].cstate| < 256
    decreases |parts|
  {
    if |parts| <= 1 then []
    else
      var c := parts[0].cstate;
      [Rehead(req, tid, |req| + 1 + |c| - HDR_SIZE) + [|c|] + c] + FollowUps(req, (tid + 1) % 0x1_0000, parts[1..])
  }

  lemma BEOfTwo(v: nat)
    ensures BE(2, v) == [v / 256 % 256, v % 256]
  {
    assert BE(1, v / 256) == BE(0, v / 256 / 256) + [v / 256 % 256];
  }

  /** Transaction ids wrap at 65536, which their two octets do anyway. */
  lemma WrappedId(v: nat, i: nat)
    ensures BE(2, v % 0x1_0000 + i) == BE(2, v + i)
  {
    hide BE;
    var y, q := v % 0x1_0000 + i, v / 0x1_0000;
    BEOfTwo(y);
    BEOfTwo(v + i);
    assert v + i == y + 256 * (256 * q);
    AddMultiple(y, 256 * q);
    AddMultiple(y / 256, q);
  }

  lemma AddMultiple(y: nat, q: nat)
    ensures (y + 256 * q) % 256 == y % 256 && (y + 256 * q) / 256 == y / 256 + q
  {
  }

  /** The follow-up requests, octet by octet: the original id and parameters under the next transaction ids, each with its
      own length and with the continuation state just received behind. */
  lemma {:induction false} FollowUpsAre(req: seq<byte>, tid: nat, parts: seq<Part>)
    requires |req| >= HDR_SIZE && (forall i :: 0 <= i < |parts| ==> |parts[i].cstate| < 256) && parts != []
    ensures |FollowUps(req, tid, parts)| == |parts| - 1
    ensures forall i :: 0 <= i < |parts| - 1 ==>
              var c := parts[i].cstate;
              FollowUps(req, tid, parts)[i]
              == [req[0]] + BE(2, tid + i) + BE(2, |req| + 1 + |c| - 5) + req[5..] + [|c|] + c
    decreases |parts|
  {
    hide BE;
    if |parts| > 1 {
      var rest, next := parts[1..], (tid + 1) % 0x1_0000;
      FollowUpsAre(req, next, rest);
      forall i | 0 <= i < |parts| - 1
        ensures var c := parts[i].cstate;
                FollowUps(req, tid, parts)[i]
                == [req[0]] + BE(2, tid + i) + BE(2, |req| + 1 + |c| - 5) + req[5..] + [|c|] + c
      {
        if i > 0 {
          assert parts[i] == rest[i - 1];
          WrappedId(tid + 1, i - 1);
        }
      }
    }
  }

  lemma ReheadTwice(req: seq<byte>, t1: nat, p1: nat, t2: nat, p2: nat)
    requires |req| >= HDR_SIZE
    ensures |Rehead(req, t1, p1)| == |req| && Rehead(Rehead(req, t1, p1), t2, p2) == Rehead(req, t2, p2)
  {
    hide BE;
    assert Rehead(req, t1, p1)[HDR_SIZE..] == req[HDR_SIZE..];
  }

  lemma {:induction false} FollowUpsSame(req: seq<byte>, t: nat, p: nat, tid: nat, parts: seq<Part>)
    requires |req| >= HDR_SIZE && forall i :: 0 <= i < |parts| ==> |parts[i].cstate| < 256
    ensures |Rehead(req, t, p)| >= HDR_SIZE && FollowUps(Rehead(req, t, p), tid, parts) == FollowUps(req, tid, parts)
    decreases |parts|
  {
    hide Rehead;
    ReheadTwice(req, t, p, tid, 0);
    if |parts| > 1 {
      ReheadTwice(req, t, p, tid, |req| + 1 + |parts[0].cstate| - HDR_SIZE);
      FollowUpsSame(req, t, p, (tid + 1) % 0x1_0000, parts[1..]);
    }
  }

  lemma {:induction false} AllFitSmall(s: State, id: byte, parts: seq<Part>)
    requires AllFit(s, id, parts)
    ensures forall i :: 0 <= i < |parts| ==> |parts[i].cstate| < 256
    ensures parts != [] ==> HDR_SIZE <= |s.req|
    decreases |parts|
  {
    hide Good, Parameters;
    if parts != [] {
      AllFitSmall(Good(s, id, parts[0]), id, parts[1..]);
      forall i | 0 <= i < |parts|
        ensures |parts[i].cstate| < 256
      {
        assert i > 0 ==> parts[i] == parts[1..][i - 1];
      }
    }
  }

  /** Continuation reassembly: a response split in any way ends the transaction with exactly one callback, status 0 and
      the accumulated octets of all parts, and each request in between is the original one followed by the
      continuation state just received, under the next transaction id. */
  lemma Reassembly(s: State, id: byte, parts: seq<Part>)
    requires AllFit(s, id, parts) && Split(parts)
    ensures HDR_SIZE <= |s.req| && forall i :: 0 <= i < |parts| ==> |parts[i].cstate| < 256
    ensures var s' := Run(s, id, parts);
            && s'.calls == s.calls + [Callback(id, 0, AccumulatedAll(s.concat, parts))]
            && s'.sent == s.sent + FollowUps(s.req, s.tid, parts)
            && |s'.sent| == |s.sent| + |parts| - 1
            && forall i :: 0 <= i < |parts| - 1 ==>
                 var c := parts[i].cstate;
                 s'.sent[|s.sent| + i]
                 == [s.req[0]] + BE(2, s.tid + i) + BE(2, |s.req| + 1 + |c| - 5) + s.req[5..] + [|c|] + c
  {
    hide Run, AllFit, FollowUps, AccumulatedAll, BE;
    AllFitSmall(s, id, parts);
    ReassemblyIs(s, id, parts);
    FollowUpsAre(s.req, s.tid, parts);
    var more := FollowUps(s.req, s.tid, parts);
    assert forall i :: 0 <= i < |more| ==> (s.sent + more)[|s.sent| + i] == more[i];
  }

  lemma {:induction false} ReassemblyIs(s: State, id: byte, parts: seq<Part>)
    requires AllFit(s, id, parts) && Split(parts)
    ensures HDR_SIZE <= |s.req| && forall i :: 0 <= i < |parts| ==> |parts[i].cstate| < 256
    ensures var s' := Run(s, id, parts);
            && s'.calls == s.calls + [Callback(id, 0, AccumulatedAll(s.concat, parts))]
            && s'.sent == s.sent + FollowUps(s.req, s.tid, parts)
    decreases |parts|
  {
    hide Process, Response, Accumulated, Rehead, Parameters, Fits;
    var p := parts[0];
    GoodPart(s, id, p);
    AllFitSmall(s, id, parts);
    if |parts| == 1 {
      assert parts[1..] == [];
      assert s.sent + [] == s.sent;
    } else {
      var c, s1 := p.cstate, Good(s, id, p);
      assert p.cstate != [];
      ReassemblyIs(s1, id, parts[1..]);
      FollowUpsSame(s.req, s.tid, |s.req| + 1 + |c| - HDR_SIZE, s1.tid, parts[1..]);
      Assoc(s.sent, s1.req + [|c|] + c, FollowUps(s1.req, s1.tid, parts[1..]));
    }
  }

  lemma Assoc(a: seq<seq<byte>>, x: seq<byte>, b: seq<seq<byte>>)
    ensures a + [x] + b == a + ([x] + b)
  {
  }

  // ---- any responses at all ----

  /** A request that carries the original one's parameters, its own length, and a continuation state, within the
      request buffer. */
  ghost predicate FollowUp(r: seq<byte>, req: seq<byte>) {
    && 5 <= |req| < |r| <= 2048
    && r[0] == req[0] && r[3..5] == BE(2, |r| - HDR_SIZE) && r[HDR_SIZE..|req|] == req[HDR_SIZE..]
    && r[|req|] == |r| - |req| - 1
  }

  ghost predicate SameParameters(a: seq<byte>, b: seq<byte>) {
    HDR_SIZE <= |a| == |b| && a[0] == b[0] && a[HDR_SIZE..] == b[HDR_SIZE..]
  }

  ghost predicate Ends(s: State, s': State) {
    s'.sent == s.sent && |s'.calls| == |s.calls| + 1 && s.calls <= s'.calls
  }

  ghost predicate GoesOn(s: State, s': State) {
    && s'.calls == s.calls && SameParameters(s'.req, s.req) && |s'.sent| == |s.sent| + 1
    && s.sent <= s'.sent && FollowUp(s'.sent[|s.sent|], s.req)
    && s'.req[1..3] == BE(2, s.tid) == s'.sent[|s.sent|][1..3] && s'.tid == (s.tid + 1) % 0x1_0000
  }

  /** Any response either ends the transaction with one callback or has one follow-up request sent, under the next
      transaction id. */
  lemma ProcessStep(s: State, rsp: seq<byte>)
    requires HDR_SIZE <= |s.req| < REQ_BUFFER_SIZE
    ensures Ends(s, Process(s, rsp)) || GoesOn(s, Process(s, rsp))
  {
    hide At, U16, Slice, AddUnswapped, Accumulate, Ends, GoesOn;
    var f := s.(concat := SearchLayout(s.concat, rsp).concat);
    FinishEnds(s, s);
    FinishEnds(s, f);
    AccumulateStep(s, rsp);
  }

  lemma FinishEnds(s: State, f: State)
    requires f.sent == s.sent && f.calls == s.calls
    ensures forall id, status, data :: Ends(s, Finish(f, id, status, data))
  {
  }

  lemma AccumulateStep(s: State, rsp: seq<byte>)
    requires HDR_SIZE <= |s.req| < REQ_BUFFER_SIZE
    ensures forall l, c :: |c| < 256 ==> Ends(s, Accumulate(s, rsp, l, c)) || GoesOn(s, Accumulate(s, rsp, l, c))
  {
    forall l, c: seq<byte> | |c| < 256
      ensures Ends(s, Accumulate(s, rsp, l, c)) || GoesOn(s, Accumulate(s, rsp, l, c))
    {
      hide Slice, At, Rehead;
      var tail := CopiedCstate(REQ_BUFFER_SIZE - |s.req|, c);
      ReheadFollowsUp(s.req, s.tid, tail);
    }
  }

  lemma ReheadFollowsUp(req: seq<byte>, tid: nat, tail: seq<byte>)
    requires HDR_SIZE <= |req| && |req| + |tail| <= REQ_BUFFER_SIZE && tail != [] && tail[0] == |tail| - 1
    ensures var r := Rehead(req, tid, |req| + |tail| - HDR_SIZE);
            SameParameters(r, req) && FollowUp(r + tail, req) && r[1..3] == BE(2, tid) == (r + tail)[1..3]
  {
    hide BE;
    var r := Rehead(req, tid, |req| + |tail| - HDR_SIZE);
    assert r[HDR_SIZE..] == req[HDR_SIZE..] && (r + tail)[HDR_SIZE..|req|] == r[HDR_SIZE..];
    assert (r + tail)[3..5] == r[3..5] == BE(2, |req| + |tail| - HDR_SIZE);
  }

  /** The transaction under arbitrary responses, until it ends. */
  ghost function Respond(s: State, rsps: seq<seq<byte>>): State
    requires HDR_SIZE <= |s.req| < REQ_BUFFER_SIZE
    decreases |rsps|
  {
    if rsps == [] then s
    else
      ProcessStep(s, rsps[0]);
      var s' := Process(s, rsps[0]);
      if Ends(s, s') then s' else Respond(s', rsps[1..])
  }

  /** Whatever the responses, the caller is called back at most once, and every request sent meanwhile carries the
      original parameters and stays within the request buffer. */
  lemma {:induction false} AnyResponses(s: State, rsps: seq<seq<byte>>)
    requires HDR_SIZE <= |s.req| < REQ_BUFFER_SIZE
    ensures var s' := Respond(s, rsps);
            && s.calls <= s'.calls && |s'.calls| <= |s.calls| + 1 && s.sent <= s'.sent
            && forall i :: |s.sent| <= i < |s'.sent| ==> FollowUp(s'.sent[i], s.req)
    decreases |rsps|
  {
    hide Process, FollowUp;
    if rsps != [] {
      ProcessStep(s, rsps[0]);
      var s1 := Process(s, rsps[0]);
      if !Ends(s, s1) {
        AnyResponses(s1, rsps[1..]);
        var s' := Respond(s1, rsps[1..]);
        forall i | |s.sent| <= i < |s'.sent|
          ensures FollowUp(s'.sent[i], s.req)
        {
          if i > |s.sent| {
            SameFollowUps(s'.sent[i], s1.req, s.req);
          }
        }
      }
    }
  }

  lemma SameFollowUps(r: seq<byte>, a: seq<byte>, b: seq<byte>)
    requires SameParameters(a, b) && FollowUp(r, a)
    ensures FollowUp(r, b)
  {
  }

  // ---- each kind of response, by its octets ----

  /** The response answers the last request and is as long as it says. */
  ghost predicate Matches(s: State, rsp: seq<byte>) {
    |rsp| >= 5 && |s.req| >= 5 && rsp[1..3] == s.req[1..3] && |rsp| == Field(rsp, 3) + 5
  }

  /** A 16-bit field, high octet first. */
  ghost function Field(rsp: seq<byte>, i: nat): nat
    requires i + 1 < |rsp|
  {
    var hi: nat, lo: nat := rsp[i], rsp[i + 1];
    256 * hi + lo
  }

  lemma U16Field(rsp: seq<byte>, i: nat)
    requires i + 1 < |rsp|
    ensures U16(rsp, i) == Field(rsp, i)
  {
    FromBETwo([rsp[i], rsp[i + 1]]);
  }

  lemma MatchesIff(s: State, rsp: seq<byte>)
    requires 5 <= |s.req|
    ensures Matches(s, rsp)
       <==> |rsp| > 0 && s.req[1..3] == [At(rsp, 1), At(rsp, 2)] && |rsp| == U16(rsp, 3) + HDR_SIZE
  {
    hide U16;
    if |rsp| >= 5 {
      U16Field(rsp, 3);
      assert rsp[1..3] == [At(rsp, 1), At(rsp, 2)];
    }
  }

  /** A response to another request, or of another length than it says, fails the transaction. */
  lemma ForeignFails(s: State, rsp: seq<byte>)
    requires 5 <= |s.req| < 2048 && !Matches(s, rsp)
    ensures Process(s, rsp) == s.(calls := s.calls + [Callback(0, 0xffff, s.concat)])
  {
    hide At, U16;
    MatchesIff(s, rsp);
  }

  /** An error response ends the transaction with its code; the caller gets what was accumulated, else the response's own
      parameters. */
  lemma ErrorEnds(s: State, rsp: seq<byte>)
    requires 5 <= |s.req| < 2048 && Matches(s, rsp) && rsp[0] == 0x01 && |rsp| >= 7
    ensures Process(s, rsp)
         == s.(calls := s.calls + [Callback(0x01, Field(rsp, 5), if s.concat != [] then s.concat else rsp[5..])])
  {
    hide At, U16;
    MatchesIff(s, rsp);
    U16Field(rsp, 5);
  }

  /** A response of a kind that was not asked for fails it. */
  lemma UnknownFails(s: State, rsp: seq<byte>)
    requires 5 <= |s.req| < 2048 && Matches(s, rsp) && rsp[0] !in {0x01, 0x03, 0x05, 0x07}
    ensures Process(s, rsp) == s.(calls := s.calls + [Callback(rsp[0], 0xffff, s.concat)])
  {
    hide At, U16;
    MatchesIff(s, rsp);
  }

  /** What was accumulated, and the continuation state: with none the transaction ends with status 0, and otherwise as much
      of it as the request buffer has room for goes behind the request. */
  ghost predicate Gathers(s: State, s': State, id: byte, concat: seq<byte>, c: seq<byte>) {
    && s'.concat == concat
    && if c == [] then s'.calls == s.calls + [Callback(id, 0, concat)] && s'.sent == s.sent
       else && GoesOn(s, s') && |s.req| < 2048
            && s'.sent[|s.sent|][|s.req| + 1..] == if |s.req| + 1 + |c| <= 2048 then c else c[..2047 - |s.req|]
  }

  /** An attribute response is taken if and only if its list and its continuation state fill it exactly. */
  lemma AttrResponseIs(s: State, rsp: seq<byte>)
    requires 5 <= |s.req| < 2048 && Matches(s, rsp) && (rsp[0] == 0x05 || rsp[0] == 0x07) && |rsp| >= 7
    ensures var n := Field(rsp, 5);
            if 7 + n < |rsp| && |rsp| == 8 + n + rsp[7 + n]
            then Gathers(s, Process(s, rsp), rsp[0], s.concat + rsp[7..7 + n], rsp[8 + n..])
            else Process(s, rsp) == s.(calls := s.calls + [Callback(rsp[0], 0xffff, s.concat)])
  {
    hide U16, Slice, Accumulate, GoesOn;
    var n := Field(rsp, 5);
    MatchesIff(s, rsp);
    U16Field(rsp, 5);
    if 7 + n < |rsp| {
      SliceIs(rsp, 7, n);
      AccumulateIs(s, rsp, Layout(7, n, 2 + n, s.concat), Slice(rsp, 8 + n, rsp[7 + n]));
      RestIs(rsp, 8 + n);
    }
  }

  lemma AccumulateIs(s: State, rsp: seq<byte>, l: Layout, c: seq<byte>)
    requires 5 <= |s.req| < 2048 && |c| < 256 && |rsp| > 0
    ensures Gathers(s, Accumulate(s, rsp, l, c), rsp[0], l.concat + Slice(rsp, l.from, l.count), c)
  {
    hide Slice, Rehead, SameParameters, FollowUp;
    var tail := CopiedCstate(REQ_BUFFER_SIZE - |s.req|, c);
    ReheadFollowsUp(s.req, s.tid, tail);
    ReheadTwice(s.req, s.tid, |s.req| + |tail| - HDR_SIZE, 0, 0);
    var r := Rehead(s.req, s.tid, |s.req| + |tail| - HDR_SIZE);
    assert (r + tail)[|r| + 1..] == tail[1..];
    assert c[..|c|] == c;
  }

  lemma RestIs(rsp: seq<byte>, at: nat)
    requires at <= |rsp|
    ensures Slice(rsp, at, |rsp| - at) == rsp[at..]
  {
    SliceIs(rsp, at, |rsp| - at);
  }

  /** The octets after a search part, for a count c at offset 7 and its handles at 9. */
  ghost function SearchConcat(concat: seq<byte>, rsp: seq<byte>): seq<byte>
    requires |rsp| >= 9
  {
    if |concat| < 4 then concat else concat[..2] + AddUnswapped(concat[2..4], rsp[7..9]) + concat[4..]
  }

  /** A search response is taken if and only if its count is at most its total and its handles and its continuation state
      fill it exactly; the count is added to the first one's even if the size is then found wrong. */
  lemma SearchResponseIs(s: State, rsp: seq<byte>)
    requires 5 <= |s.req| < 2048 && Matches(s, rsp) && rsp[0] == 0x03 && |rsp| >= 9
    ensures var c, at := Field(rsp, 7), 9 + 4 * Field(rsp, 7);
            var before := SearchConcat(s.concat, rsp);
            if c > Field(rsp, 5) then Process(s, rsp) == s.(calls := s.calls + [Callback(0x03, 0xffff, s.concat)])
            else if at < |rsp| && |rsp| == at + 1 + rsp[at]
            then Gathers(s, Process(s, rsp), 0x03, before + rsp[if |s.concat| < 4 then 5 else 9..at], rsp[at + 1..])
            else Process(s, rsp) == s.(concat := before, calls := s.calls + [Callback(0x03, 0xffff, before)])
  {
    hide U16, Slice, Accumulate, GoesOn, AddUnswapped;
    var c, at := Field(rsp, 7), 9 + 4 * Field(rsp, 7);
    MatchesIff(s, rsp);
    U16Field(rsp, 5);
    U16Field(rsp, 7);
    assert rsp[7..9] == [At(rsp, 7), At(rsp, 8)];
    if at < |rsp| {
      SliceIs(rsp, 5, 4 + 4 * c);
      SliceIs(rsp, 9, 4 * c);
      AccumulateIs(s, rsp, SearchLayout(s.concat, rsp), Slice(rsp, at + 1, rsp[at]));
      RestIs(rsp, at + 1);
    }
  }

  ghost function Payloads(parts: seq<Part>): seq<byte>
    requires forall i :: 0 <= i < |parts| ==> parts[i].Attrs?
  {
    if parts == [] then [] else parts[0].payload + Payloads(parts[1..])
  }

  /** For attribute responses the octets accumulated are the payloads run together. */
  lemma {:induction false} AttrsAccumulate(concat: seq<byte>, parts: seq<Part>)
    requires forall i :: 0 <= i < |parts| ==> parts[i].Attrs?
    ensures AccumulatedAll(concat, parts) == concat + Payloads(parts)
    decreases |parts|
  {
    if parts == [] {
      assert concat + [] == concat;
    } else {
      AttrsAccumulate(concat + parts[0].payload, parts[1..]);
      assert concat + parts[0].payload + Payloads(parts[1..]) == concat + (parts[0].payload + Payloads(parts[1..]));
    }
  }

  // ---- counts of split searches ----

  ghost function Handles(parts: seq<Part>): seq<byte>
    requires forall i :: 0 <= i < |parts| ==> parts[i].Found?
  {
    if parts == [] then [] else parts[0].handles + Handles(parts[1..])
  }

  /** The count field after the counts of further fragments have been added. */
  ghost function CountField(field: seq<byte>, parts: seq<Part>): (r: seq<byte>)
    requires |field| == 2 && forall i :: 0 <= i < |parts| ==> parts[i].Found?
    ensures |r| == 2
    decreases |parts|
  {
    if parts == [] then field else CountField(AddUnswapped(field, BE(2, parts[0].count)), parts[1..])
  }

  lemma {:induction false} FoundAccumulate(total: seq<byte>, field: seq<byte>, tail: seq<byte>, parts: seq<Part>)
    requires |total| == 2 && |field| == 2 && forall i :: 0 <= i < |parts| ==> parts[i].Found?
    ensures AccumulatedAll(total + field + tail, parts) == total + CountField(field, parts) + (tail + Handles(parts))
    decreases |parts|
  {
    hide AddUnswapped, BE;
    var c := total + field + tail;
    if parts == [] {
      assert tail + [] == tail;
    } else {
      var p, f := parts[0], AddUnswapped(field, BE(2, parts[0].count));
      assert c[..2] == total && c[2..4] == field && c[4..] == tail;
      assert total + f + tail + p.handles == total + f + (tail + p.handles);
      FoundAccumulate(total, f, tail + p.handles, parts[1..]);
      assert tail + p.handles + Handles(parts[1..]) == tail + (p.handles + Handles(parts[1..]));
    }
  }

  /** For search responses the caller gets the first total, the summed count and all handles. */
  lemma SearchAccumulates(parts: seq<Part>)
    requires parts != [] && forall i :: 0 <= i < |parts| ==> parts[i].Found?
    ensures AccumulatedAll([], parts)
         == BE(2, parts[0].total) + CountField(BE(2, parts[0].count), parts[1..]) + Handles(parts)
  {
    hide BE;
    var p := parts[0];
    assert [] + Parameters(p) == BE(2, p.total) + BE(2, p.count) + p.handles;
    FoundAccumulate(BE(2, p.total), BE(2, p.count), p.handles, parts[1..]);
  }

  ghost function Sum(parts: seq<Part>): nat
    requires forall i :: 0 <= i < |parts| ==> parts[i].Found?
  {
    if parts == [] then 0 else parts[0].count + Sum(parts[1..])
  }

  /** Sum of the low octets of the counts. */
  ghost function LowSum(parts: seq<Part>): nat
    requires forall i :: 0 <= i < |parts| ==> parts[i].Found?
  {
    if parts == [] then 0 else parts[0].count % 256 + LowSum(parts[1..])
  }

  lemma BETwo(v: nat)
    requires v < 0x1_0000
    ensures BE(2, v) == [v / 256, v % 256]
  {
    assert BE(1, v / 256) == BE(0, v / 256 / 256) + [v / 256 % 256];
  }

  lemma FromBETwo(a: seq<byte>)
    requires |a| == 2
    ensures var hi: nat, lo: nat := a[0], a[1]; FromBE(a) == 256 * hi + lo
  {
    assert a[..1] == [a[0]];
    FromBEOne(a[0]);
  }

  /** The count field as an unswapped number is the sum of the counts' unswapped numbers, modulo 65536. */
  lemma {:induction false} CountFieldIs(field: seq<byte>, parts: seq<Part>, h: nat, l: nat)
    requires |field| == 2 && forall i :: 0 <= i < |parts| ==> parts[i].Found? && parts[i].count < 0x1_0000
    requires Unswapped(field) == (h + 256 * l) % 0x1_0000
    ensures var lows := LowSum(parts); var highs := HighSum(parts);
            Unswapped(CountField(field, parts)) == (h + highs + 256 * (l + lows)) % 0x1_0000
    decreases |parts|
  {
    if parts != [] {
      hide AddUnswapped, BE, Unswapped;
      var c := parts[0].count;
      AddedIs(field, c, h + 256 * l);
      CountFieldIs(AddUnswapped(field, BE(2, c)), parts[1..], h + c / 256, l + c % 256);
    }
  }

  lemma AddedIs(field: seq<byte>, c: nat, v: nat)
    requires |field| == 2 && c < 0x1_0000 && Unswapped(field) == v % 0x1_0000
    ensures Unswapped(AddUnswapped(field, BE(2, c))) == (v + c / 256 + 256 * (c % 256)) % 0x1_0000
  {
    hide BE;
    BETwo(c);
    var u := Unswapped(BE(2, c));
    AddsModulo(field, BE(2, c));
    WrapTwice(v, u);
  }

  lemma AddsModulo(a: seq<byte>, b: seq<byte>)
    requires |a| == |b| == 2
    ensures Unswapped(AddUnswapped(a, b)) == (Unswapped(a) + Unswapped(b)) % 0x1_0000
  {
  }

  lemma WrapTwice(v: nat, u: nat)
    ensures (v % 0x1_0000 + u) % 0x1_0000 == (v + u) % 0x1_0000
  {
  }

  ghost function HighSum(parts: seq<Part>): nat
    requires forall i :: 0 <= i < |parts| ==> parts[i].Found?
  {
    if parts == [] then 0 else parts[0].count / 256 + HighSum(parts[1..])
  }

  lemma {:induction false} SumSplits(parts: seq<Part>)
    requires forall i :: 0 <= i < |parts| ==> parts[i].Found?
    ensures Sum(parts) == 256 * HighSum(parts) + LowSum(parts)
  {
    if parts != [] {
      SumSplits(parts[1..]);
    }
  }

  /** The count handed to the caller of a split search is right if and only if it fits its field and the low octets of the
      parts' counts add up to at most 255: a carry out of the low octet is lost. */
  lemma CountIff(parts: seq<Part>)
    requires parts != [] && forall i :: 0 <= i < |parts| ==> parts[i].Found? && parts[i].count < 0x1_0000
    ensures FromBE(CountField(BE(2, parts[0].count), parts[1..])) == Sum(parts)
       <==> LowSum(parts) <= 255 && Sum(parts) < 0x1_0000
  {
    hide BE, FromBE, Unswapped, HighSum, LowSum, Sum, CountField;
    var c := parts[0].count;
    var field := BE(2, c);
    FirstCount(c);
    CountFieldIs(field, parts[1..], c / 256, c % 256);
    SumsStep(parts);
    SumSplits(parts);
    FromBETwo(CountField(field, parts[1..]));
    Carry(CountField(field, parts[1..]), HighSum(parts), LowSum(parts));
  }

  lemma SumsStep(parts: seq<Part>)
    requires parts != [] && forall i :: 0 <= i < |parts| ==> parts[i].Found?
    ensures HighSum(parts) == parts[0].count / 256 + HighSum(parts[1..])
    ensures LowSum(parts) == parts[0].count % 256 + LowSum(parts[1..])
  {
  }

  lemma FirstCount(c: nat)
    requires c < 0x1_0000
    ensures Unswapped(BE(2, c)) == (c / 256 + 256 * (c % 256)) % 0x1_0000
  {
    BETwo(c);
  }

  lemma Carry(a: seq<byte>, h: nat, l: nat)
    requires |a| == 2 && Unswapped(a) == (h + 256 * l) % 0x1_0000
    ensures var hi: nat, lo: nat := a[0], a[1]; 256 * hi + lo == 256 * h + l <==> l <= 255 && 256 * h + l < 0x1_0000
  {
  }

  /** A concrete miscount: parts of 200 and 100 records are reported as fewer than 300. */
  lemma CarryIsLost(a: Part, b: Part)
    requires a.Found? && b.Found? && a.count == 200 && b.count == 100
    ensures FromBE(CountField(BE(2, a.count), [b])) != Sum([a, b]) == 300
  {
    hide CountField, BE, FromBE;
    assert [a, b][1..] == [b] && [b][1..] == [];
    assert Sum([b]) == 100 + Sum([]) && LowSum([b]) == 100 + LowSum([]);
    assert Sum([a, b]) == 200 + Sum([b]) && LowSum([a, b]) == 200 + LowSum([b]);
    CountIff([a, b]);
  }
}

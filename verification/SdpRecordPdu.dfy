/** Whole records to octets and back: sdp_gen_record_pdu and sdp_extract_pdu_safe. */
module SdpRecordPdu {
  import opened Bytes
  import opened SdpElement
  import opened SdpBuf
  import opened SdpExtract
  import opened SdpRecord
  import SdpList

  // ---- generating ----

  function RecordBody(attrs: seq<Attr>): seq<byte> {
    if attrs == [] then [] else AttrPdu(attrs[0]) + RecordBody(attrs[1..])
  }

  /** The PDU of a record: nothing at all for a record without attributes. */
  function RecordPdu(attrs: seq<Attr>): seq<byte> {
    if attrs == [] then [] else Seal(SEQ8, RecordBody(attrs))
  }

  lemma {:induction false} RecordBodySnoc(attrs: seq<Attr>, a: Attr)
    ensures RecordBody(attrs + [a]) == RecordBody(attrs) + AttrPdu(a)
  {
    if attrs == [] {
      assert RecordBody([a]) == AttrPdu(a) + RecordBody([]);
    } else {
      assert (attrs + [a])[1..] == attrs[1..] + [a];
      RecordBodySnoc(attrs[1..], a);
    }
  }

  lemma RecordPduSnoc(attrs: seq<Attr>, a: Attr)
    ensures RecordPdu(attrs + [a]) == Seal(Kind(RecordPdu(attrs)), Body(RecordPdu(attrs)) + AttrPdu(a))
  {
    RecordBodySnoc(attrs, a);
    if attrs != [] {
      SealAgain(RecordBody(attrs), AttrPdu(a));
    }
  }

  lemma NoAttrs()
    ensures RecordPdu([]) == [] && Framed([])
  {
  }

  method GenRecordPdu(attrs: seq<Attr>) returns (buf: Buf)
    requires forall a :: a in attrs ==> Typed(a.value) && |AttrPdu(a)| <= 256
    ensures fresh(buf) && buf.Valid() && buf.Contents() == RecordPdu(attrs)
  {
    hide RecordBody, AttrPdu, Seal, Framed, Encode, Typed;
    buf := new Buf(CHUNK_SIZE);
    var i := 0;
    NoAttrs();
    while i < |attrs|
      invariant 0 <= i <= |attrs|
      invariant fresh(buf) && fresh(buf.data)
      invariant buf.Ready() && buf.data.Length >= CHUNK_SIZE
      invariant buf.Contents() == RecordPdu(attrs[..i])
    {
      RecordPduSnoc(attrs[..i], attrs[i]);
      assert attrs[..i + 1] == attrs[..i] + [attrs[i]];
      buf.AppendToPdu(attrs[i]);
      i := i + 1;
    }
    assert attrs[..i] == attrs;
  }

  // ---- reading elements, filling the pattern ----

  /** The octets before the one a sequence loop stands at have already been turned into `es`. */
  function Prefixed(es: seq<Element>, n: nat, r: LoopOutcome): LoopOutcome {
    match r
    case Items(es', m) => Items(es + es', n + m)
    case stuck => stuck
  }

  /** What the loop of extract_seq comes to from the state (items, n) with its cursor at p. */
  ghost function Continued(items: seq<Element>, n: nat, buf: seq<byte>, p: nat, seqlen: int): LoopOutcome {
    if p <= |buf| then Prefixed(items, n, ExtractItems(buf[p..], seqlen - n)) else Items(items, n)
  }

  /** One turn of that loop. */
  lemma LoopAdvance(items: seq<Element>, n: nat, buf: seq<byte>, p: nat, seqlen: int, e: Element, k: nat)
    requires n < seqlen && k > 0 && p <= |buf| && Extract(buf[p..]) == Got(e, k) && (p + k > |buf| ==> n + k >= seqlen)
    ensures Continued(items, n, buf, p, seqlen) == Continued(items + [e], n + k, buf, p + k, seqlen)
  {
    var rest, left := buf[p..], seqlen - n;
    if p + k <= |buf| {
      assert rest[k..] == buf[p + k..];
      if ExtractItems(rest[k..], left - k).Items? {
        var es := ExtractItems(rest[k..], left - k).elems;
        assert items + ([e] + es) == items + [e] + es;
      }
    }
  }

  /** The ways that loop stops early. */
  lemma LoopStops(items: seq<Element>, n: nat, buf: seq<byte>, p: nat, seqlen: int)
    ensures p > |buf| || n >= seqlen ==> Continued(items, n, buf, p, seqlen) == Items(items, n)
    ensures p <= |buf| && n < seqlen ==>
              var r, c := Extract(buf[p..]), Continued(items, n, buf, p, seqlen);
              if r.Null? then c == Items(items, n)
              else if r.Hang? || (r.Got? && r.used == 0) then c == LoopHang
              else if r.Overrun? || (p + r.used > |buf| && n + r.used < seqlen) then c == LoopOverrun
              else true
  {
    assert items + [] == items;
  }

  lemma {:induction false} UuidsAllSnoc(items: seq<Element>, e: Element)
    ensures UuidsAll(items + [e]) == UuidsAll(items) + Uuids(e)
  {
    if items == [] {
      assert UuidsAll([e]) == Uuids(e) + UuidsAll([]);
    } else {
      assert (items + [e])[1..] == items[1..] + [e];
      UuidsAllSnoc(items[1..], e);
    }
  }

  lemma PatternNone(pattern: seq<seq<byte>>)
    ensures PatternAll(pattern, UuidsAll([])) == pattern
  {
  }

  lemma PatternStep(pattern: seq<seq<byte>>, items: seq<Element>, e: Element)
    ensures PatternAll(PatternAll(pattern, UuidsAll(items)), Uuids(e)) == PatternAll(pattern, UuidsAll(items + [e]))
  {
    UuidsAllSnoc(items, e);
    PatternAllConcat(pattern, UuidsAll(items), Uuids(e));
  }

  /** sdp_extract_attr_safe, with the record whose search pattern it extends. */
  method ExtractAttr(buf: seq<byte>, rec: Record?) returns (r: Outcome)
    modifies rec
    ensures r == Extract(buf)
    ensures rec != null ==> rec.attrs == old(rec.attrs)
    ensures rec != null && r.Got? ==> rec.pattern == PatternAll(old(rec.pattern), Uuids(r.elem))
    ensures rec != null && r.Null? ==> rec.pattern == old(rec.pattern)
    decreases |buf|, 1
  {
    if |buf| < 1 {
      return Null;
    }
    if IsNumDtd(buf[0]) {
      r := ExtractFixed(buf);
    } else if IsUuidDtd(buf[0]) {
      r := ExtractFixed(buf);
      if r.Got? && rec != null {
        PatternAllOne(rec.pattern, r.elem.uuid);
        rec.PatternAddUuid(r.elem.uuid);
      }
    } else if IsStrDtd(buf[0]) {
      r := ExtractStr(buf);
    } else if IsSeqDtd(buf[0]) {
      r := ExtractSequence(buf, rec);
    } else {
      r := Null;
    }
  }

  lemma PatternAllOne(pattern: seq<seq<byte>>, u: Uuid)
    ensures PatternAll(pattern, [u]) == PatternAdded(pattern, u)
  {
    assert PatternAll(PatternAdded(pattern, u), []) == PatternAdded(pattern, u);
  }

  /** extract_seq: the loop moves a cursor through the whole remaining buffer. */
  method ExtractSequence(buf: seq<byte>, rec: Record?) returns (r: Outcome)
    requires |buf| > 0 && IsSeqDtd(buf[0])
    modifies rec
    ensures r == ExtractSeq(buf)
    ensures rec != null ==> rec.attrs == old(rec.attrs)
    ensures rec != null && r.Got? ==> rec.pattern == PatternAll(old(rec.pattern), Uuids(r.elem))
    ensures !r.Null?
    decreases |buf|, 0
  {
    hide Continued, Extract, ExtractItems, PatternAll, UuidsAll, IsSeqDtd;
    var w, alt := LengthWidth(buf[0]), buf[0] >= ALT8;
    if rec != null {
      PatternNone(rec.pattern);
    }
    if |buf| - 1 < w {
      return Got(List(alt, w, []), 0);
    }
    var seqlen := AsInt32(FromBE(buf[1..1 + w]));
    var p, n, items := 1 + w, 0, [];
    ghost var whole := Continued([], 0, buf, p, seqlen);
    WholeLoop(buf, p, seqlen);
    while n < seqlen
      invariant p == 1 + w + n && (p > |buf| ==> n >= seqlen)
      invariant whole == Continued(items, n, buf, p, seqlen)
      invariant rec != null ==> rec.attrs == old(rec.attrs)
      invariant rec != null ==> rec.pattern == PatternAll(old(rec.pattern), UuidsAll(items))
      decreases seqlen - n
    {
      LoopStops(items, n, buf, p, seqlen);
      var curr := ExtractAttr(buf[p..], rec);
      match curr {
        case Null => break;
        case Hang => return Hang;
        case Overrun => return Overrun;
        case Got(e, attrlen) =>
          if attrlen == 0 {
            return Hang;
          }
          if p + attrlen > |buf| && n + attrlen < seqlen {
            return Overrun;
          }
          if rec != null {
            PatternStep(old(rec.pattern), items, e);
          }
          LoopAdvance(items, n, buf, p, seqlen, e, attrlen);
          items := items + [e];
          p := p + attrlen;
          n := n + attrlen;
      }
    }
    LoopStops(items, n, buf, p, seqlen);
    r := Got(List(alt, w, items), 1 + w + n);
  }

  lemma WholeLoop(buf: seq<byte>, p: nat, left: int)
    requires p <= |buf|
    ensures Continued([], 0, buf, p, left) == ExtractItems(buf[p..], left)
  {
    var r := ExtractItems(buf[p..], left);
    if r.Items? {
      assert [] + r.elems == r.elems;
    }
  }

  // ---- reading records ----

  datatype RecordOutcome = RecordHang | RecordOverrun | Read(attrs: seq<Attr>, pattern: seq<seq<byte>>)

  /** The attribute loop of sdp_extract_pdu_safe: `left` octets of the announced length still to come. */
  function ExtractAttrs(buf: seq<byte>, left: int, attrs: seq<Attr>, pattern: seq<seq<byte>>): RecordOutcome
    decreases |buf|
  {
    if left <= 0 || |buf| < 3 then Read(attrs, pattern)
    else match Extract(buf[3..])
      case Null => Read(attrs, pattern)
      case Hang => RecordHang
      case Overrun => RecordOverrun
      case Got(e, k) =>
        var attrs', pattern' := Replaced(attrs, FromBE(buf[1..3]), e), PatternAll(pattern, Uuids(e));
        if 3 + k > |buf| then Read(attrs', pattern')
        else ExtractAttrs(buf[3 + k..], left - 3 - k, attrs', pattern')
  }

  /** sdp_extract_seqtype_safe: the octets of a sequence header, 0 on failure. */
  function HeaderSize(buf: seq<byte>): (n: nat)
    ensures n <= |buf|
  {
    if |buf| < 1 || !IsSeqDtd(buf[0]) || |buf| - 1 < LengthWidth(buf[0]) then 0 else 1 + LengthWidth(buf[0])
  }

  /** The length it announces, left at 0 on failure. */
  function SeqLen(buf: seq<byte>): int {
    if HeaderSize(buf) == 0 then 0 else AsInt32(FromBE(buf[1..HeaderSize(buf)]))
  }

  /** sdp_extract_pdu_safe: the record read, and the count reported as scanned. */
  function ExtractRecord(buf: seq<byte>): RecordOutcome {
    ExtractAttrs(buf[HeaderSize(buf)..], SeqLen(buf), [], [])
  }

  function Scanned(buf: seq<byte>): int {
    HeaderSize(buf) + SeqLen(buf)
  }

  /** What the attribute loop comes to with its cursor at p and `done` octets extracted. */
  ghost function AttrsContinued(buf: seq<byte>, p: nat, done: nat, seqlen: int,
                                attrs: seq<Attr>, pattern: seq<seq<byte>>): RecordOutcome {
    if p <= |buf| then ExtractAttrs(buf[p..], seqlen - done, attrs, pattern) else Read(attrs, pattern)
  }

  /** One turn of that loop. */
  lemma AttrsAdvance(buf: seq<byte>, p: nat, done: nat, seqlen: int,
                     attrs: seq<Attr>, pattern: seq<seq<byte>>, e: Element, k: nat)
    requires done < seqlen && p + 3 <= |buf| && Extract(buf[p + 3..]) == Got(e, k)
    ensures AttrsContinued(buf, p, done, seqlen, attrs, pattern)
         == AttrsContinued(buf, p + 3 + k, done + 3 + k, seqlen,
                           Replaced(attrs, FromBE(buf[p + 1..p + 3]), e), PatternAll(pattern, Uuids(e)))
  {
    hide Extract, FromBE, Replaced, PatternAll;
    var b := buf[p..];
    assert b[1..3] == buf[p + 1..p + 3] && b[3..] == buf[p + 3..];
    if p + 3 + k <= |buf| {
      assert b[3 + k..] == buf[p + 3 + k..];
    }
  }

  /** The ways that loop stops. */
  lemma AttrsStop(buf: seq<byte>, p: nat, done: nat, seqlen: int, attrs: seq<Attr>, pattern: seq<seq<byte>>)
    ensures var c := AttrsContinued(buf, p, done, seqlen, attrs, pattern);
            if done >= seqlen || p + 3 > |buf| then c == Read(attrs, pattern)
            else match Extract(buf[p + 3..])
              case Null => c == Read(attrs, pattern)
              case Hang => c == RecordHang
              case Overrun => c == RecordOverrun
              case Got(_, _) => true
  {
    if p + 3 <= |buf| {
      assert buf[p..][3..] == buf[p + 3..];
    }
  }

  lemma WholeRecord(buf: seq<byte>)
    ensures AttrsContinued(buf, HeaderSize(buf), 0, SeqLen(buf), [], []) == ExtractRecord(buf)
  {
    hide ExtractAttrs, HeaderSize, SeqLen;
  }

  /** The attribute loop over an arbitrary buffer. A stuck read leaves no record to speak of. */
  method ExtractPdu(buf: seq<byte>) returns (r: RecordOutcome, rec: Record, scanned: int)
    ensures r == ExtractRecord(buf) && scanned == Scanned(buf)
    ensures fresh(rec) && (r.Read? ==> rec.attrs == r.attrs && rec.pattern == r.pattern)
  {
    hide Extract, ExtractAttrs, PatternAll, AttrsContinued, HeaderSize, SeqLen, FromBE, Replaced;
    WholeRecord(buf);
    var start, seqlen := HeaderSize(buf), SeqLen(buf);
    scanned := start + seqlen;
    rec := new Record();
    var p, extracted := start, 0;
    ghost var whole := AttrsContinued(buf, start, 0, seqlen, [], []);
    while extracted < seqlen && p < |buf|
      invariant p == start + extracted && 0 <= start <= p
      invariant whole == AttrsContinued(buf, p, extracted, seqlen, rec.attrs, rec.pattern)
      decreases |buf| - p
    {
      AttrsStop(buf, p, extracted, seqlen, rec.attrs, rec.pattern);
      if |buf| - p < 3 {
        break;
      }
      ghost var pattern := rec.pattern;
      var id := FromBE(buf[p + 1..p + 3]);
      var data := ExtractAttr(buf[p + 3..], rec);
      match data {
        case Null => break;
        case Hang =>
          r := RecordHang;
          return;
        case Overrun =>
          r := RecordOverrun;
          return;
        case Got(e, attrlen) =>
          AttrsAdvance(buf, p, extracted, seqlen, rec.attrs, pattern, e, attrlen);
          rec.AttrReplace(id, e);
          extracted := extracted + 3 + attrlen;
          p := p + 3 + attrlen;
      }
    }
    AttrsStop(buf, p, extracted, seqlen, rec.attrs, rec.pattern);
    r := Read(rec.attrs, rec.pattern);
  }

  // ---- round trip ----

  ghost predicate Sorted(attrs: seq<Attr>) {
    SdpList.Increasing(attrs, AttrKey)
  }

  /** 16-bit ids in increasing order and proper values, of which each survives by itself; of the last one, with `t` behind
      it in the buffer, only the tree has to. */
  ghost predicate WellFormed(attrs: seq<Attr>, t: seq<byte>) {
    && Sorted(attrs)
    && (forall i :: 0 <= i < |attrs| ==> attrs[i].id < 0x1_0000 && Typed(attrs[i].value))
    && (forall i :: 0 <= i < |attrs| - 1 ==> Recoverable(attrs[i].value))
    && (attrs != [] ==> ReadWhole(attrs[|attrs| - 1].value, t))
  }

  /** Whatever follows, it is enough that the last value is whole: a 16-bit string will do. */
  lemma WholeWellFormed(attrs: seq<Attr>, t: seq<byte>)
    requires Sorted(attrs) && forall i :: 0 <= i < |attrs| ==> attrs[i].id < 0x1_0000 && Typed(attrs[i].value)
    requires forall i :: 0 <= i < |attrs| - 1 ==> Recoverable(attrs[i].value)
    requires attrs != [] ==> Whole(attrs[|attrs| - 1].value)
    ensures WellFormed(attrs, t)
  {
    if attrs != [] {
      WholeReads(attrs[|attrs| - 1].value, t);
    }
  }

  function RecordUuids(attrs: seq<Attr>): seq<Uuid> {
    if attrs == [] then [] else Uuids(attrs[0].value) + RecordUuids(attrs[1..])
  }

  /** One attribute at the head of the buffer is read back and appended. */
  lemma AttrReads(a: Attr, t: seq<byte>, left: int, done: seq<Attr>, pattern: seq<seq<byte>>)
    requires a.id < 0x1_0000 && Typed(a.value) && Recoverable(a.value) && left > 0
    requires forall i :: 0 <= i < |done| ==> done[i].id < a.id
    ensures ExtractAttrs(AttrPdu(a) + t, left, done, pattern)
         == ExtractAttrs(t, left - |AttrPdu(a)|, done + [a], PatternAll(pattern, Uuids(a.value)))
  {
    hide Encode, Extract, PatternAll, Replaced, Recoverable;
    var b, k := AttrPdu(a) + t, |Encode(a.value)|;
    AttrOctets(a, t);
    RoundTripIff(a.value, t);
    ReplacedAppends(done, a.id, a.value);
    assert Extract(b[3..]) == Got(a.value, k);
  }

  /** So is the last one, and the loop ends with it. */
  lemma LastReads(a: Attr, t: seq<byte>, left: int, done: seq<Attr>, pattern: seq<seq<byte>>)
    requires a.id < 0x1_0000 && Typed(a.value) && ReadWhole(a.value, t) && 0 < left <= |AttrPdu(a)|
    requires forall i :: 0 <= i < |done| ==> done[i].id < a.id
    ensures ExtractAttrs(AttrPdu(a) + t, left, done, pattern) == Read(done + [a], PatternAll(pattern, Uuids(a.value)))
  {
    hide Encode, Extract, PatternAll, Replaced, FromBE;
    var b, k := AttrPdu(a) + t, Extract(Encode(a.value) + t).used;
    AttrOctets(a, t);
    ReadsAtLeast(a.value, t);
    ReplacedAppends(done, a.id, a.value);
    if 3 + k <= |b| {
      NothingLeft(b[3 + k..], left - 3 - k, done + [a], PatternAll(pattern, Uuids(a.value)));
    }
  }

  lemma AttrOctets(a: Attr, t: seq<byte>)
    requires a.id < 0x1_0000
    ensures var b := AttrPdu(a) + t;
            FromBE(b[1..3]) == a.id && b[3..] == Encode(a.value) + t && b[|AttrPdu(a)|..] == t
  {
    hide Encode, BE, FromBE, Pow256;
    var b := AttrPdu(a) + t;
    assert b[1..3] == BE(2, a.id);
    Pow256Values();
    BERoundTrip(2, a.id);
  }

  lemma AttrsRead(attrs: seq<Attr>, t: seq<byte>, pattern: seq<seq<byte>>)
    requires WellFormed(attrs, t)
    ensures ExtractAttrs(RecordBody(attrs) + t, |RecordBody(attrs)|, [], pattern)
         == Read(attrs, PatternAll(pattern, RecordUuids(attrs)))
  {
    hide ExtractAttrs, PatternAll, WellFormed;
    assert [] + attrs == attrs;
    AttrsReadIff(attrs, t, |RecordBody(attrs)|, [], pattern);
    if attrs != [] {
      hide RecordBody;
      LastAtIs(attrs);
      AttrPduNotEmpty(attrs[|attrs| - 1]);
    }
  }

  lemma NextAttr(done: seq<Attr>, attrs: seq<Attr>, t: seq<byte>)
    requires WellFormed(done + attrs, t) && attrs != []
    ensures forall i :: 0 <= i < |done| ==> done[i].id < attrs[0].id
    ensures attrs[0].id < 0x1_0000 && Typed(attrs[0].value)
    ensures if |attrs| == 1 then ReadWhole(attrs[0].value, t) else Recoverable(attrs[0].value)
    ensures done + [attrs[0]] + attrs[1..] == done + attrs
  {
    hide ReadWhole, Recoverable, Typed;
    var all := done + attrs;
    assert all[|done|] == attrs[0];
    forall i | 0 <= i < |done|
      ensures done[i].id < attrs[0].id
    {
      assert AttrKey(all[i]) < AttrKey(all[|done|]);
    }
  }

  /** The header an append run leaves announces the body's length modulo 65536. */
  lemma SealedHeader(body: seq<byte>, t: seq<byte>)
    ensures var s := Seal(SEQ8, body) + t;
            && HeaderSize(s) + |body| == |Seal(SEQ8, body)| && s[HeaderSize(s)..] == body + t
            && SeqLen(s) == |body| % 0x1_0000
  {
    var s := Seal(SEQ8, body) + t;
    var w := LengthWidth(s[0]);
    assert s[1..1 + w] == BE(w, |body|) && s[1 + w..] == body + t;
    FromBEofBE(w, |body|);
    Pow256Values();
  }

  /** Reading a printed record gives its attributes in order and the pattern of all its UUIDs, and reports exactly
      the PDU as scanned. */
  ghost predicate RecordUndone(attrs: seq<Attr>, t: seq<byte>) {
    var pdu := RecordPdu(attrs);
    ExtractRecord(pdu + t) == Read(attrs, PatternAll([], RecordUuids(attrs))) && Scanned(pdu + t) == |pdu|
  }

  /** Record round trip, exactly: whatever follows in the buffer, a printed record is read back unchanged
      if and only if its body is within the 65535 octets a 16-bit length field can announce. */
  lemma RecordRoundTripIff(attrs: seq<Attr>, t: seq<byte>)
    requires WellFormed(attrs, t) && (attrs == [] ==> t == [])
    ensures RecordUndone(attrs, t) <==> |RecordBody(attrs)| <= 65535
  {
    if attrs != [] {
      SealedHeader(RecordBody(attrs), t);
      if |RecordBody(attrs)| <= 65535 {
        RecordReads(attrs, t);
      }
    }
  }

  lemma RecordReads(attrs: seq<Attr>, t: seq<byte>)
    requires WellFormed(attrs, t) && attrs != [] && |RecordBody(attrs)| <= 65535
    ensures RecordUndone(attrs, t)
  {
    hide ExtractAttrs, RecordBody, AttrPdu, WellFormed, PatternAll;
    var body := RecordBody(attrs);
    SealedHeader(body, t);
    assert |body| % 0x1_0000 == |body|;
    AttrsRead(attrs, t, []);
  }

  /** Offset of the last attribute in the body. */
  function LastAt(attrs: seq<Attr>): nat
    requires attrs != []
  {
    |RecordBody(attrs[..|attrs| - 1])|
  }

  lemma LastAtIs(attrs: seq<Attr>)
    requires attrs != []
    ensures |RecordBody(attrs)| == LastAt(attrs) + |AttrPdu(attrs[|attrs| - 1])|
  {
    var n := |attrs| - 1;
    RecordBodySnoc(attrs[..n], attrs[n]);
    assert attrs == attrs[..n] + [attrs[n]];
  }

  /** However short the length announced, the attribute loop returns the first so many attributes, and it returns all of
      them, with the pattern of their UUIDs, exactly when the last one starts inside that length. */
  lemma {:induction false} AttrsReadIff(attrs: seq<Attr>, t: seq<byte>, left: int,
                                        done: seq<Attr>, pattern: seq<seq<byte>>)
    requires WellFormed(done + attrs, t) && left <= |RecordBody(attrs)|
    ensures var r := ExtractAttrs(RecordBody(attrs) + t, left, done, pattern);
            && r.Read? && (r.attrs == done + attrs <==> attrs == [] || LastAt(attrs) < left)
            && (r.attrs == done + attrs ==> r.pattern == PatternAll(pattern, RecordUuids(attrs)))
            && |r.attrs| <= |done + attrs| && r.attrs == (done + attrs)[..|r.attrs|]
    decreases |attrs|
  {
    hide AttrPdu, Extract, ExtractAttrs, PatternAll, Replaced, RecordBody, WellFormed, LastAt;
    NothingLeft(RecordBody(attrs) + t, left, done, pattern);
    BodyStep(attrs);
    if attrs == [] {
      NoUuids(pattern);
      assert done + attrs == done;
    } else if left <= 0 {
      assert |done + attrs| > |done|;
    } else {
      var a, rest := attrs[0], attrs[1..];
      NextAttr(done, attrs, t);
      UuidsStep(attrs, pattern);
      assert RecordBody(attrs) + t == AttrPdu(a) + (RecordBody(rest) + t);
      if rest == [] {
        BodyStep(rest);
        assert [] + t == t && attrs == [a];
        LastReads(a, t, left, done, pattern);
      } else {
        AttrReads(a, RecordBody(rest) + t, left, done, pattern);
        AttrsReadIff(rest, t, left - |AttrPdu(a)|, done + [a], PatternAll(pattern, Uuids(a.value)));
      }
    }
  }

  lemma NoUuids(pattern: seq<seq<byte>>)
    ensures PatternAll(pattern, RecordUuids([])) == pattern
  {
  }

  lemma UuidsStep(attrs: seq<Attr>, pattern: seq<seq<byte>>)
    requires attrs != []
    ensures PatternAll(PatternAll(pattern, Uuids(attrs[0].value)), RecordUuids(attrs[1..]))
         == PatternAll(pattern, RecordUuids(attrs))
    ensures |attrs| == 1 ==> PatternAll(pattern, Uuids(attrs[0].value)) == PatternAll(pattern, RecordUuids(attrs))
  {
    hide Uuids;
    PatternAllConcat(pattern, Uuids(attrs[0].value), RecordUuids(attrs[1..]));
    if |attrs| == 1 {
      assert attrs[1..] == [] && RecordUuids([]) == [];
      assert Uuids(attrs[0].value) + [] == Uuids(attrs[0].value);
    }
  }

  lemma NothingLeft(buf: seq<byte>, left: int, attrs: seq<Attr>, pattern: seq<seq<byte>>)
    ensures left <= 0 ==> ExtractAttrs(buf, left, attrs, pattern) == Read(attrs, pattern)
  {
  }

  lemma BodyStep(attrs: seq<Attr>)
    ensures attrs == [] ==> RecordBody(attrs) == []
    ensures attrs != [] ==> RecordBody(attrs) == AttrPdu(attrs[0]) + RecordBody(attrs[1..])
    ensures attrs != [] ==> LastAt(attrs) == if |attrs| == 1 then 0 else |AttrPdu(attrs[0])| + LastAt(attrs[1..])
  {
    hide AttrPdu;
    if |attrs| == 1 {
      assert attrs[..0] == [];
    } else if |attrs| > 1 {
      assert attrs[..|attrs| - 1][1..] == attrs[1..][..|attrs| - 2];
    }
  }

  /** What a record loses, exactly. Whatever follows it, a printed record is read as some record, and all its attributes
      come back if and only if the last one starts inside the length the 16-bit field can announce. For attributes
      the printer has room for that is: if and only if the body is at most 65535 octets. */
  lemma AttributesIff(attrs: seq<Attr>, t: seq<byte>)
    requires WellFormed(attrs, t) && attrs != []
    ensures var r, n := ExtractRecord(RecordPdu(attrs) + t), |RecordBody(attrs)|;
            && r.Read? && |r.attrs| <= |attrs| && r.attrs == attrs[..|r.attrs|]
            && (r.attrs == attrs <==> LastAt(attrs) < n % 0x1_0000)
            && (|AttrPdu(attrs[|attrs| - 1])| <= 256 ==> (r.attrs == attrs <==> n <= 65535))
  {
    hide ExtractAttrs, RecordBody, AttrPdu, WellFormed, LastAt, HeaderSize, SeqLen, Seal;
    var body := RecordBody(attrs);
    SealedHeader(body, t);
    LastAtIs(attrs);
    assert [] + attrs == attrs;
    AttrsReadIff(attrs, t, |body| % 0x1_0000, [], []);
    AttrPduNotEmpty(attrs[|attrs| - 1]);
  }

  lemma AttrPduNotEmpty(a: Attr)
    ensures AttrPdu(a) != []
  {
  }

  lemma {:induction false} UuidsTyped(e: Element)
    requires Typed(e)
    ensures forall u :: u in Uuids(e) ==> TypedUuid(u)
    decreases e, 1
  {
    if e.List? {
      UuidsAllTyped(e.items);
    }
  }

  lemma {:induction false} UuidsAllTyped(items: seq<Element>)
    requires forall i :: 0 <= i < |items| ==> Typed(items[i])
    ensures forall u :: u in UuidsAll(items) ==> TypedUuid(u)
    decreases items, 0
  {
    if items != [] {
      UuidsTyped(items[0]);
      UuidsAllTyped(items[1..]);
    }
  }

  lemma {:induction false} RecordUuidsTyped(attrs: seq<Attr>)
    requires forall i :: 0 <= i < |attrs| ==> Typed(attrs[i].value)
    ensures forall u :: u in RecordUuids(attrs) ==> TypedUuid(u)
  {
    if attrs != [] {
      UuidsTyped(attrs[0].value);
      RecordUuidsTyped(attrs[1..]);
    }
  }

  /** The pattern of a record read back: strictly sorted, and exactly the full forms of its UUIDs at any depth. */
  lemma RecordPattern(attrs: seq<Attr>)
    requires forall i :: 0 <= i < |attrs| ==> Typed(attrs[i].value)
    ensures var p := PatternAll([], RecordUuids(attrs));
            Pattern(p) && forall s :: s in p <==> s in FullForms(RecordUuids(attrs))
    ensures forall u :: u in RecordUuids(attrs) <==> exists i :: 0 <= i < |attrs| && Occurs(u, attrs[i].value)
  {
    RecordUuidsTyped(attrs);
    PatternAllSet([], RecordUuids(attrs));
    forall u
      ensures u in RecordUuids(attrs) <==> exists i :: 0 <= i < |attrs| && Occurs(u, attrs[i].value)
    {
      RecordUuidsOccur(attrs, u);
    }
  }

  lemma {:induction false} RecordUuidsOccur(attrs: seq<Attr>, u: Uuid)
    ensures u in RecordUuids(attrs) <==> exists i :: 0 <= i < |attrs| && Occurs(u, attrs[i].value)
  {
    if attrs != [] {
      var rest := attrs[1..];
      UuidsOccur(attrs[0].value, u);
      RecordUuidsOccur(rest, u);
      assert forall i :: 0 <= i < |rest| ==> rest[i] == attrs[i + 1];
      assert forall i :: 0 < i < |attrs| ==> attrs[i] == rest[i - 1];
    }
  }

  /** Octets that do not start with a whole sequence header are read as an empty record, with nothing scanned; and an
      attribute whose value cannot be read ends the record before it. */
  lemma NoHeader(buf: seq<byte>)
    requires buf == [] || !(0x35 <= buf[0] <= 0x37 || 0x3D <= buf[0] <= 0x3F) || CutHeader(buf)
    ensures ExtractRecord(buf) == Read([], []) && Scanned(buf) == 0
  {
  }

  lemma UnreadableAttribute(buf: seq<byte>, left: int, attrs: seq<Attr>, pattern: seq<seq<byte>>)
    requires |buf| >= 3 && Extract(buf[3..]) == Null
    ensures ExtractAttrs(buf, left, attrs, pattern) == Read(attrs, pattern)
  {
  }

  // ---- a record that is too large ----

  /** n attributes, each a text of 200 octets. */
  function Texts(n: nat): seq<Attr> {
    if n == 0 then [] else Texts(n - 1) + [Attr(n - 1, Str(false, 1, seq(200, _ => 0x61)))]
  }

  lemma {:induction false} TextsAre(n: nat)
    requires n < 0x1_0000
    ensures |Texts(n)| == n && (forall i :: 0 <= i < n ==> Texts(n)[i].id == i && Typed(Texts(n)[i].value))
    ensures forall i :: 0 <= i < n ==> Recoverable(Texts(n)[i].value)
    ensures n > 0 ==> Whole(Texts(n)[n - 1].value) && |AttrPdu(Texts(n)[n - 1])| == 205
    ensures |RecordBody(Texts(n))| == 205 * n
  {
    if n > 0 {
      var text := seq<byte>(200, _ => 0x61);
      TextsAre(n - 1);
      RecordBodySnoc(Texts(n - 1), Attr(n - 1, Str(false, 1, text)));
      assert |Encode(Str(false, 1, text))| == 202;
    }
  }

  /** A record of 320 such attributes, each printed without trouble, is read as a record with fewer. */
  lemma LargeRecordIsLost(t: seq<byte>)
    ensures var r := ExtractRecord(RecordPdu(Texts(320)) + t); r.Read? && |r.attrs| < 320
  {
    hide ExtractRecord, RecordPdu, RecordBody, WellFormed, Texts, AttrPdu, Typed, Recoverable, Whole, LastAt;
    var attrs := Texts(320);
    TextsAre(320);
    assert Sorted(attrs);
    WholeWellFormed(attrs, t);
    AttributesIff(attrs, t);
    assert attrs[..320] == attrs;
  }

  /** A record that ends in a 16-bit string comes back whole, although the string's own count is wrong. */
  lemma LongStringLast(url: bool, text: seq<byte>, t: seq<byte>)
    requires |text| < 65530
    ensures RecordUndone([Attr(0, Str(url, 2, text))], t)
  {
    var attrs := [Attr(0, Str(url, 2, text))];
    WholeWellFormed(attrs, t);
    assert RecordBody(attrs) == AttrPdu(attrs[0]) + RecordBody([]);
    assert |Encode(attrs[0].value)| == 3 + |text|;
    RecordRoundTripIff(attrs, t);
  }
}

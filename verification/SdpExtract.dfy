/** Reading data elements back from octets (sdp_extract_attr_safe and the readers below it). */
module SdpExtract {
  import opened Bytes
  import opened SdpElement
  import SdpBuf

  /** What a reader does with the octets left in the buffer.
      `Null`: it returns NULL. `Got`: it returns an element and reports `used` octets.
      `Hang`: it never returns, because an inner sequence loop made no progress and so repeats for ever.
      `Overrun`: its cursor has left the buffer while a sequence loop still wants more. */
  datatype Outcome = Null | Hang | Overrun | Got(elem: Element, used: nat)

  /** The same for the loop over the elements of a sequence. */
  datatype LoopOutcome = LoopHang | LoopOverrun | Items(elems: seq<Element>, used: nat)

  predicate IsNumDtd(dtd: byte) {
    dtd == DATA_NIL || UINT8 <= dtd <= UINT8 + 4 || INT8 <= dtd <= INT8 + 4 || dtd == BOOL
  }

  predicate IsUuidDtd(dtd: byte) {
    dtd == UUID16 || dtd == UUID32 || dtd == UUID128
  }

  predicate IsStrDtd(dtd: byte) {
    TEXT_STR8 <= dtd <= TEXT_STR8 + 2 || URL_STR8 <= dtd <= URL_STR8 + 2
  }

  predicate IsSeqDtd(dtd: byte) {
    SEQ8 <= dtd <= SEQ8 + 2 || ALT8 <= dtd <= ALT8 + 2
  }

  function SizeAt(i: nat): nat {
    if i == 0 then 1 else if i == 1 then 2 else if i == 2 then 4 else if i == 3 then 8 else 16
  }

  /** Octets of value that follow an integer or UUID descriptor. */
  function FixedWidth(dtd: byte): nat {
    if dtd == DATA_NIL then 0
    else if dtd == BOOL then 1
    else if UINT8 <= dtd <= UINT8 + 4 then SizeAt(dtd - UINT8)
    else if INT8 <= dtd <= INT8 + 4 then SizeAt(dtd - INT8)
    else if dtd == UUID16 then 2
    else if dtd == UUID32 then 4
    else 16
  }

  function FixedElement(dtd: byte, v: seq<byte>): Element {
    if dtd == DATA_NIL then Nil
    else if dtd == BOOL then Num(Bool, 1, FromBE(v))
    else if dtd == UUID16 then Id(Uuid16(FromBE(v)))
    else if dtd == UUID32 then Id(Uuid32(FromBE(v)))
    else if dtd == UUID128 then Id(Uuid128(v))
    else if dtd < INT8 then Num(UInt, FixedWidth(dtd), FromBE(v))
    else Num(SInt, FixedWidth(dtd), FromBE(v))
  }

  /** extract_int and extract_uuid. */
  function ExtractFixed(buf: seq<byte>): Outcome
    requires |buf| > 0
  {
    var w := FixedWidth(buf[0]);
    if |buf| - 1 < w then Null else Got(FixedElement(buf[0], buf[1..1 + w]), 1 + w)
  }

  /** extract_str. A 16-bit string's length enters the reported count twice; 32-bit strings are refused. */
  function ExtractStr(buf: seq<byte>): Outcome
    requires |buf| > 0 && IsStrDtd(buf[0])
  {
    var w, url := SdpBuf.LengthWidth(buf[0]), buf[0] >= URL_STR8;
    if w == 4 || |buf| - 1 < w then Null
    else
      var n := FromBE(buf[1..1 + w]);
      if |buf| - 1 - w < n then Null
      else Got(Str(url, w, buf[1 + w..1 + w + n]), 1 + w + n + if w == 2 then n else 0)
  }

  /** The length field of a sequence is kept in an int. */
  function AsInt32(v: nat): int {
    if v < 0x8000_0000 then v else v - 0x1_0000_0000
  }

  /** extract_seq. A header that is cut short still yields an (empty) sequence, with nothing consumed. */
  function ExtractSeq(buf: seq<byte>): Outcome
    requires |buf| > 0
    decreases |buf|, 0
  {
    var w, alt := SdpBuf.LengthWidth(buf[0]), buf[0] >= ALT8;
    if |buf| - 1 < w then Got(List(alt, w, []), 0)
    else match ExtractItems(buf[1 + w..], AsInt32(FromBE(buf[1..1 + w])))
      case LoopHang => Hang
      case LoopOverrun => Overrun
      case Items(es, n) => Got(List(alt, w, es), 1 + w + n)
  }

  /** The loop of extract_seq, `left` octets of the announced length still to come. The inner reader is given
      all of the remaining buffer. */
  function ExtractItems(buf: seq<byte>, left: int): LoopOutcome
    decreases |buf|, 2
  {
    if left <= 0 then Items([], 0)
    else match Extract(buf)
      case Null => Items([], 0)
      case Hang => LoopHang
      case Overrun => LoopOverrun
      case Got(e, n) =>
        if n == 0 then LoopHang
        else if n > |buf| then (if n < left then LoopOverrun else Items([e], n))
        else match ExtractItems(buf[n..], left - n)
          case Items(es, m) => Items([e] + es, n + m)
          case stuck => stuck
  }

  /** sdp_extract_attr_safe. */
  function Extract(buf: seq<byte>): Outcome
    decreases |buf|, 1
  {
    if |buf| < 1 then Null
    else if IsNumDtd(buf[0]) || IsUuidDtd(buf[0]) then ExtractFixed(buf)
    else if IsStrDtd(buf[0]) then ExtractStr(buf)
    else if IsSeqDtd(buf[0]) then ExtractSeq(buf)
    else Null
  }

  // ---- When reading undoes printing ----

  /** The condition under which an element survives the round trip: no 16-bit string with content and no 32-bit
      string at any depth, 8-bit strings within 255 octets, and in every sequence the last element starts before
      the end its (possibly truncated) length field announces. */
  ghost predicate Recoverable(e: Element)
    decreases e, 1
  {
    match e
    case Str(_, w, text) => (w == 1 && |text| < 256) || (w == 2 && text == [])
    case List(_, w, items) =>
      RecoverableAll(items) && LastStarts(items, Announced(e))
    case _ => true
  }

  ghost predicate RecoverableAll(items: seq<Element>)
    decreases items, 0
  {
    forall i :: 0 <= i < |items| ==> Recoverable(items[i])
  }

  /** What a reader takes the length field of a printed sequence to say. */
  ghost function Announced(e: Element): int
    requires e.List?
  {
    AsInt32(|EncodeAll(e.items)| % Pow256(e.width))
  }

  /** Reading gives the element back and consumes exactly its octets, whatever follows it. */
  ghost predicate Undone(e: Element, t: seq<byte>) {
    Extract(Encode(e) + t) == Got(e, |Encode(e)|)
  }

  ghost predicate LoopUndone(items: seq<Element>, t: seq<byte>, left: int) {
    ExtractItems(EncodeAll(items) + t, left) == Items(items, |EncodeAll(items)|)
  }

  lemma FixedDescriptor(e: Element)
    requires Typed(e) && (e.Nil? || e.Num? || e.Id?)
    ensures IsNumDtd(Dtd(e)) || IsUuidDtd(Dtd(e))
    ensures FixedWidth(Dtd(e)) == |SdpBuf.Value(e)| && FixedElement(Dtd(e), SdpBuf.Value(e)) == e
  {
    hide BE, FromBE, Pow256;
    match e
    case Nil =>
    case Num(_, w, n) => BERoundTrip(w, n);
    case Id(u) => UuidRead(u);
  }

  lemma UuidRead(u: Uuid)
    requires TypedUuid(u)
    ensures FixedElement(Dtd(Id(u)), UuidOctets(u)) == Id(u)
  {
    hide BE, FromBE, Pow256;
    Pow256Values();
    match u
    case Uuid16(n) => BERoundTrip(2, n);
    case Uuid32(n) => BERoundTrip(4, n);
    case Uuid128(_) =>
  }

  lemma FixedRoundTrip(e: Element, t: seq<byte>)
    requires Typed(e) && (e.Nil? || e.Num? || e.Id?)
    ensures Undone(e, t)
  {
    var b, v := Encode(e) + t, SdpBuf.Value(e);
    SdpBuf.EncodeParts(e);
    FixedDescriptor(e);
    assert b[1..1 + |v|] == v;
  }

  lemma StrOctets(e: Element, t: seq<byte>, m: nat)
    requires Typed(e) && e.Str? && m <= |e.text|
    ensures var b, w := Encode(e) + t, e.width;
            && IsStrDtd(b[0]) && SdpBuf.LengthWidth(b[0]) == w && (b[0] >= URL_STR8) == e.url
            && |b| >= 1 + w + |e.text|
            && b[1..1 + w] == BE(w, |e.text|) && b[1 + w..1 + w + m] == e.text[..m]
  {
    var head, w := [Dtd(e)] + BE(e.width, |e.text|), e.width;
    assert Encode(e) + t == head + (e.text + t);
    assert (head + (e.text + t))[1..1 + w] == head[1..];
    assert (head + (e.text + t))[1 + w..1 + w + m] == (e.text + t)[..m];
  }

  /** What reading a printed string gives: as much of it as its truncated length field says. */
  lemma StrReads(e: Element, t: seq<byte>, m: nat)
    requires Typed(e) && e.Str? && m == FromBE(BE(e.width, |e.text|)) && m <= |e.text|
    ensures Extract(Encode(e) + t)
         == if e.width == 4 then Null
            else Got(e.(text := e.text[..m]), 1 + e.width + m + if e.width == 2 then m else 0)
    ensures |Encode(e)| == 1 + e.width + |e.text|
  {
    hide BE, FromBE;
    StrOctets(e, t, m);
  }

  lemma {:induction false} StrRead(e: Element, t: seq<byte>)
    requires Typed(e) && e.Str?
    ensures Undone(e, t) <==> Recoverable(e)
  {
    hide BE, FromBE, Pow256, Extract, Encode;
    var w, n := e.width, |e.text|;
    var m := FromBE(BE(w, n));
    FieldValue(w, n);
    StrReads(e, t, m);
    Pow256Values();
    assert e.text[..n] == e.text;
    assert m != n ==> |e.text[..m]| != |e.text|;
  }

  /** The count a reader reports for an element it returns: it depends on the element alone. */
  ghost function Cost(e: Element): nat
    decreases e, 1
  {
    match e
    case Str(_, 2, text) => 3 + 2 * |text|
    case List(_, w, items) => 1 + w + CostAll(items)
    case _ => |Encode(e)|
  }

  ghost function CostAll(items: seq<Element>): nat
    decreases items, 0
  {
    if items == [] then 0 else Cost(items[0]) + CostAll(items[1..])
  }

  lemma {:induction false} CostAtLeast(e: Element)
    ensures Cost(e) >= |Encode(e)|
    decreases e, 1
  {
    if e.List? {
      CostAllAtLeast(e.items);
    }
  }

  lemma {:induction false} CostAllAtLeast(items: seq<Element>)
    ensures CostAll(items) >= |EncodeAll(items)|
    decreases items, 0
  {
    if items != [] {
      CostAtLeast(items[0]);
      CostAllAtLeast(items[1..]);
    }
  }

  lemma {:induction false} UsedIsCost(buf: seq<byte>)
    requires Extract(buf).Got? && Extract(buf).used > 0
    ensures Extract(buf).used == Cost(Extract(buf).elem)
    decreases |buf|, 0
  {
    if IsSeqDtd(buf[0]) {
      var w := SdpBuf.LengthWidth(buf[0]);
      LoopUsedIsCost(buf[1 + w..], AsInt32(FromBE(buf[1..1 + w])));
    }
  }

  lemma {:induction false} LoopUsedIsCost(buf: seq<byte>, left: int)
    requires ExtractItems(buf, left).Items?
    ensures ExtractItems(buf, left).used == CostAll(ExtractItems(buf, left).elems)
    decreases |buf|, 1
  {
    if left > 0 && Extract(buf).Got? {
      var e, n := Extract(buf).elem, Extract(buf).used;
      UsedIsCost(buf);
      if n <= |buf| {
        LoopUsedIsCost(buf[n..], left - n);
        assert ([e] + ExtractItems(buf[n..], left - n).elems)[1..] == ExtractItems(buf[n..], left - n).elems;
      } else {
        assert CostAll([e]) == Cost(e) + CostAll([]);
      }
    }
  }

  /** Reading a printed sequence comes down to its element loop. */
  lemma ListRead(e: Element, t: seq<byte>)
    requires Typed(e) && e.List?
    ensures var r := ExtractItems(EncodeAll(e.items) + t, Announced(e));
            Extract(Encode(e) + t) == match r
                                      case LoopHang => Hang
                                      case LoopOverrun => Overrun
                                      case Items(es, n) => Got(e.(items := es), 1 + e.width + n)
  {
    ListHeader(e, t);
  }

  lemma Pieces(x: byte, field: seq<byte>, body: seq<byte>, t: seq<byte>)
    ensures var b := [x] + field + body + t;
            b[0] == x && b[1..1 + |field|] == field && b[1 + |field|..] == body + t
  {
    assert [x] + field + body + t == [x] + field + (body + t);
  }

  lemma ListHeader(e: Element, t: seq<byte>)
    requires Typed(e) && e.List?
    ensures var b, w := Encode(e) + t, e.width;
            && IsSeqDtd(b[0]) && !IsStrDtd(b[0]) && SdpBuf.LengthWidth(b[0]) == w && (b[0] >= ALT8) == e.alt
            && |b| > w && b[1 + w..] == EncodeAll(e.items) + t
            && AsInt32(FromBE(b[1..1 + w])) == Announced(e)
  {
    hide BE, FromBE, Pow256, EncodeAll;
    var w, body := e.width, EncodeAll(e.items);
    Pieces(Dtd(e), BE(w, |body|), body, t);
    FromBEofBE(w, |body|);
  }

  /** Round trip, exactly: with any octets following, reading a printed element gives the same tree and consumes
      exactly its octets if and only if the element is recoverable. */
  lemma {:induction false} RoundTripIff(e: Element, t: seq<byte>)
    requires Typed(e)
    ensures Undone(e, t) <==> Recoverable(e)
    decreases e, 1
  {
    if e.Str? {
      StrRead(e, t);
    } else if e.List? {
      ListRead(e, t);
      AnnouncedBound(e);
      LoopRoundTripIff(e.items, t, Announced(e));
    } else {
      FixedRoundTrip(e, t);
    }
  }

  lemma AnnouncedBound(e: Element)
    requires e.List?
    ensures Announced(e) <= |EncodeAll(e.items)|
  {
    ModAtMost(|EncodeAll(e.items)|, Pow256(e.width));
  }

  /** The last element of a sequence starts inside the announced length. */
  ghost predicate LastStarts(items: seq<Element>, left: int) {
    items != [] ==> |EncodeAll(items[..|items| - 1])| < left
  }

  lemma LastStartsStep(items: seq<Element>, left: int)
    requires items != [] && 0 < left <= |EncodeAll(items)|
    ensures LastStarts(items, left) <==> LastStarts(items[1..], left - |Encode(items[0])|)
  {
    var rest := items[1..];
    if rest != [] {
      assert items[..|items| - 1] == [items[0]] + rest[..|rest| - 1];
      assert ([items[0]] + rest[..|rest| - 1])[1..] == rest[..|rest| - 1];
    } else {
      assert items[..0] == [];
    }
  }

  lemma {:induction false} LoopRoundTripIff(items: seq<Element>, t: seq<byte>, left: int)
    requires (forall i :: 0 <= i < |items| ==> Typed(items[i])) && left <= |EncodeAll(items)|
    ensures LoopUndone(items, t, left) <==> RecoverableAll(items) && LastStarts(items, left)
    decreases items, 0
  {
    if items != [] && left > 0 {
      LoopUndoneStep(items, t, left);
      RecoverableAllStep(items);
      RoundTripIff(items[0], EncodeAll(items[1..]) + t);
      LoopRoundTripIff(items[1..], t, left - |Encode(items[0])|);
      LastStartsStep(items, left);
    }
  }

  /** The loop undoes the printing of its elements exactly when each is undone in turn. */
  lemma LoopUndoneStep(items: seq<Element>, t: seq<byte>, left: int)
    requires items != [] && left > 0
    ensures LoopUndone(items, t, left)
       <==> && Undone(items[0], EncodeAll(items[1..]) + t)
            && LoopUndone(items[1..], t, left - |Encode(items[0])|)
  {
    if Undone(items[0], EncodeAll(items[1..]) + t) {
      FirstUndone(items, t, left);
    } else {
      Derailed(items, t, left);
    }
  }

  lemma EncodeAllHead(items: seq<Element>, t: seq<byte>)
    requires items != []
    ensures EncodeAll(items) + t == Encode(items[0]) + (EncodeAll(items[1..]) + t)
    ensures (EncodeAll(items) + t)[|Encode(items[0])|..] == EncodeAll(items[1..]) + t
  {
    hide Encode;
    Regroup(Encode(items[0]), EncodeAll(items[1..]), t);
  }

  lemma Regroup(a: seq<byte>, b: seq<byte>, c: seq<byte>)
    ensures a + b + c == a + (b + c) && (a + b + c)[|a|..] == b + c
  {
    assert (a + (b + c))[|a|..] == b + c;
  }

  lemma FirstUndone(items: seq<Element>, t: seq<byte>, left: int)
    requires items != [] && left > 0 && Undone(items[0], EncodeAll(items[1..]) + t)
    ensures LoopUndone(items, t, left) <==> LoopUndone(items[1..], t, left - |Encode(items[0])|)
  {
    EncodeAllHead(items, t);
    assert items == [items[0]] + items[1..];
    LoopStep(EncodeAll(items) + t, left, items[0], |Encode(items[0])|, items[1..], |EncodeAll(items[1..])|);
  }

  lemma RecoverableAllStep(items: seq<Element>)
    requires items != []
    ensures RecoverableAll(items) <==> Recoverable(items[0]) && RecoverableAll(items[1..])
  {
    if RecoverableAll(items[1..]) && Recoverable(items[0]) {
      forall i | 0 <= i < |items|
        ensures Recoverable(items[i])
      {
        assert i > 0 ==> items[i] == items[1..][i - 1];
      }
    }
  }

  lemma LoopStep(b: seq<byte>, left: int, e: Element, k: nat, rest: seq<Element>, n: nat)
    requires left > 0 && 0 < k <= |b| && Extract(b) == Got(e, k)
    ensures ExtractItems(b, left) == Items([e] + rest, k + n) <==> ExtractItems(b[k..], left - k) == Items(rest, n)
  {
    hide Extract;
    var r := ExtractItems(b[k..], left - k);
    if r.Items? {
      assert ([e] + r.elems)[1..] == r.elems && ([e] + rest)[1..] == rest;
    }
  }

  /** An element that is not recovered throws the loop off: either the tree or the count comes out wrong. */
  lemma Derailed(items: seq<Element>, t: seq<byte>, left: int)
    requires items != [] && left > 0 && !Undone(items[0], EncodeAll(items[1..]) + t)
    ensures !LoopUndone(items, t, left)
  {
    var b, e, rest := EncodeAll(items) + t, items[0], items[1..];
    EncodeAllHead(items, t);
    if LoopUndone(items, t, left) {
      LoopUsedIsCost(b, left);
      UsedIsCost(b);
      CostAtLeast(e);
      CostAllAtLeast(rest);
      assert false;
    }
  }

  // ---- The tree alone ----

  /** Reading gives the same tree, whatever count it reports. */
  ghost predicate ReadWhole(e: Element, t: seq<byte>) {
    var r := Extract(Encode(e) + t); r.Got? && r.elem == e
  }

  /** Where the count may be wrong: in the last element, at any depth. There 16-bit strings may have content. */
  ghost predicate Whole(e: Element) {
    match e
    case Str(_, w, text) => (w == 1 && |text| < 256) || (w == 2 && |text| < 0x1_0000)
    case List(_, w, items) =>
      && (forall i :: 0 <= i < |items| - 1 ==> Recoverable(items[i]))
      && (items != [] ==> Whole(items[|items| - 1])) && LastStarts(items, Announced(e))
    case _ => true
  }

  /** A tree that is read back is never reported as smaller than it is. */
  lemma ReadsAtLeast(e: Element, t: seq<byte>)
    requires Typed(e) && ReadWhole(e, t)
    ensures Extract(Encode(e) + t).used >= |Encode(e)|
  {
    hide Extract, Encode;
    var b := Encode(e) + t;
    NoProgressIff(b);
    PrintedNotCut(e, t);
    UsedIsCost(b);
    CostAtLeast(e);
  }

  lemma PrintedNotCut(e: Element, t: seq<byte>)
    requires Typed(e)
    ensures !CutHeader(Encode(e) + t)
  {
    SdpBuf.EncodeParts(e);
  }

  /** Such an element is read back as a tree, whatever follows it. */
  lemma {:induction false} WholeReads(e: Element, t: seq<byte>)
    requires Typed(e) && Whole(e)
    ensures ReadWhole(e, t)
    decreases e, 1
  {
    hide Extract, Encode, BE, FromBE, Pow256;
    if e.Str? {
      Pow256Values();
      FieldValue(e.width, |e.text|);
      StrReads(e, t, |e.text|);
      assert e.text[..|e.text|] == e.text;
    } else if e.List? {
      hide EncodeAll, ExtractItems, Announced;
      ListRead(e, t);
      AnnouncedBound(e);
      LoopWholeReads(e.items, t, Announced(e));
    } else {
      FixedRoundTrip(e, t);
    }
  }

  lemma {:induction false} LoopWholeReads(items: seq<Element>, t: seq<byte>, left: int)
    requires (forall i :: 0 <= i < |items| ==> Typed(items[i])) && left <= |EncodeAll(items)|
    requires (forall i :: 0 <= i < |items| - 1 ==> Recoverable(items[i])) && LastStarts(items, left)
    requires items != [] ==> Whole(items[|items| - 1])
    ensures var r := ExtractItems(EncodeAll(items) + t, left); r.Items? && r.elems == items
    decreases items, 0
  {
    hide Extract, Encode, Whole, Recoverable, Typed, ReadWhole;
    if |items| == 1 {
      assert items[1..] == [] && [] + t == t;
      WholeReads(items[0], t);
      EncodeAllHead(items, t);
      assert items[..0] == [] && EncodeAll([]) == [];
      assert EncodeAll(items) == Encode(items[0]) + [] == Encode(items[0]);
      OneWhole(items[0], t, left);
    } else if |items| > 1 {
      var rest := items[1..];
      assert left > 0;
      assert rest[|rest| - 1] == items[|items| - 1];
      RoundTripIff(items[0], EncodeAll(rest) + t);
      EncodeAllHead(items, t);
      LastStartsStep(items, left);
      LoopWholeReads(rest, t, left - |Encode(items[0])|);
      assert [items[0]] + rest == items;
    }
  }

  /** A loop ends with an element that is read back and not counted short. */
  lemma OneWhole(e: Element, t: seq<byte>, left: int)
    requires Typed(e) && ReadWhole(e, t) && 0 < left <= |Encode(e)|
    ensures var r := ExtractItems(Encode(e) + t, left); r.Items? && r.elems == [e]
  {
    hide Extract, Encode;
    ReadsAtLeast(e, t);
    assert [e] + [] == [e];
  }

  /** Strings of 8-bit length and every length within its field. */
  ghost predicate Fitting(e: Element) {
    match e
    case Str(_, w, text) => w == 1 && |text| <= 255
    case List(_, w, items) =>
      && |EncodeAll(items)| < (if w == 4 then 0x8000_0000 else Pow256(w))
      && forall i :: 0 <= i < |items| ==> Fitting(items[i])
    case _ => true
  }

  /** Elements whose lengths fit their fields are recovered. */
  lemma {:induction false} FittingRecoverable(e: Element)
    requires Typed(e) && Fitting(e)
    ensures Recoverable(e)
  {
    if e.List? {
      var items, n := e.items, |EncodeAll(e.items)|;
      forall i | 0 <= i < |items|
        ensures Recoverable(items[i])
      {
        FittingRecoverable(items[i]);
      }
      Pow256Values();
      ModUnique(n, Pow256(e.width), 0, n);
      if items != [] {
        EncodeAllStep(items, |items| - 1);
        assert items[..|items|] == items;
      }
    }
  }

  /** The shortest 16-bit string with content: read back whole, but one octet too many is counted. */
  lemma LongStringMiscounted()
    ensures var e := Str(false, 2, [0x61]);
            Encode(e) == [0x26, 0x00, 0x01, 0x61] && Extract(Encode(e)) == Got(e, 5)
  {
    var e := Str(false, 2, [0x61]);
    assert BE(2, 1) == [0, 1] by {
      assert BE(1, 0) == BE(0, 0) + [0];
    }
    var b := [0x26, 0x00, 0x01, 0x61];
    assert Encode(e) == b;
    assert b[1..3] == BE(2, 1);
    FromBEofBE(2, 1);
    Pow256Values();
    assert b[3..4] == [0x61];
  }

  /** A sequence that ends in the descriptor octet of another one: the loop never gets past it. */
  lemma CutHeaderHangs()
    ensures Extract([0x35, 0x01, 0x35]) == Hang
  {
    var b, r: seq<byte> := [0x35, 0x01, 0x35], [0x35];
    assert b[1..2] == [0x01] && b[2..] == r;
    FromBEOne(1);
    assert Extract(r) == Got(List(false, 1, []), 0);
    assert ExtractItems(r, 1) == LoopHang;
  }

  /** An element that cannot be read ends the sequence around it, which is returned with what was read before. */
  lemma UnreadableEnds(n: byte, rest: seq<byte>)
    requires Extract(rest) == Null
    ensures Extract([0x35, n] + rest) == Got(List(false, 1, []), 2)
    ensures n > 2 ==> Extract([0x35, n, 0x08, 0x2A] + rest) == Got(List(false, 1, [Num(UInt, 1, 0x2A)]), 4)
  {
    hide FromBE;
    var d := [0x08, 0x2A] + rest;
    FromBEOne(0x2A);
    ShortSequence(n, rest);
    ShortSequence(n, d);
    assert [0x35, n, 0x08, 0x2A] + rest == [0x35, n] + d;
    assert d[1..2] == [0x2A] && d[2..] == rest;
    assert Extract(d) == Got(Num(UInt, 1, 0x2A), 2);
    assert ExtractItems(rest, n) == Items([], 0) && ExtractItems(rest, n - 2) == Items([], 0);
    if n > 2 {
      var one := [Num(UInt, 1, 0x2A)];
      assert one + [] == one && ExtractItems(d, n) == Items(one, 2);
    }
  }

  lemma ShortSequence(n: byte, body: seq<byte>)
    ensures var r := ExtractItems(body, n);
            r.Items? ==> Extract([0x35, n] + body) == Got(List(false, 1, r.elems), 2 + r.used)
  {
    hide FromBE;
    var b := [0x35, n] + body;
    FromBEOne(n);
    assert b[1..2] == [n] && b[2..] == body;
    assert Extract(b) == ExtractSeq(b);
  }

  /** A 32-bit sequence length is signed: with its top bit set the sequence is read as empty, whatever follows. */
  lemma NegativeLengthReadsEmpty(length: seq<byte>, rest: seq<byte>)
    requires |length| == 4 && length[0] >= 0x80
    ensures Extract([0x37] + length + rest) == Got(List(false, 4, []), 5)
  {
    hide FromBE, Pow256;
    var b := [0x37] + length + rest;
    assert b[1..5] == length && b[5..] == rest;
    TopOctet(length);
    assert ExtractItems(rest, AsInt32(FromBE(length))) == Items([], 0);
  }

  lemma TopOctet(s: seq<byte>)
    requires |s| == 4 && s[0] >= 0x80
    ensures 0x8000_0000 <= FromBE(s) < 0x1_0000_0000
  {
    hide FromBE, Pow256;
    assert s == [s[0]] + s[1..];
    FromBEConcat([s[0]], s[1..]);
    FromBEOne(s[0]);
    FromBEBound(s);
    Pow256Values();
    PowThree();
  }

  lemma PowThree()
    ensures Pow256(3) == 0x100_0000
  {
    assert Pow256(3) == 256 * Pow256(2) == 256 * (256 * Pow256(1));
  }

  // ---- Any octets at all ----

  /** Whatever is returned is a proper element. */
  lemma {:induction false} ExtractTyped(buf: seq<byte>)
    requires Extract(buf).Got?
    ensures Typed(Extract(buf).elem)
    decreases |buf|, 0
  {
    if IsNumDtd(buf[0]) || IsUuidDtd(buf[0]) {
      FixedTyped(buf[0], buf[1..1 + FixedWidth(buf[0])]);
    } else if IsSeqDtd(buf[0]) {
      var w := SdpBuf.LengthWidth(buf[0]);
      if |buf| - 1 >= w {
        LoopTyped(buf[1 + w..], AsInt32(FromBE(buf[1..1 + w])));
      }
    }
  }

  lemma FixedTyped(dtd: byte, v: seq<byte>)
    requires (IsNumDtd(dtd) || IsUuidDtd(dtd)) && |v| == FixedWidth(dtd)
    ensures Typed(FixedElement(dtd, v))
  {
    FromBEBound(v);
    Pow256Values();
  }

  lemma {:induction false} LoopTyped(buf: seq<byte>, left: int)
    requires ExtractItems(buf, left).Items?
    ensures forall i :: 0 <= i < |ExtractItems(buf, left).elems| ==> Typed(ExtractItems(buf, left).elems[i])
    decreases |buf|, 1
  {
    if left > 0 && Extract(buf).Got? {
      var n := Extract(buf).used;
      ExtractTyped(buf);
      if n <= |buf| {
        LoopTyped(buf[n..], left - n);
      }
    }
  }

  /** No 16-bit string with content at any depth. */
  ghost predicate ShortTexts(e: Element) {
    match e
    case Str(_, w, text) => w == 2 ==> text == []
    case List(_, _, items) => forall i :: 0 <= i < |items| ==> ShortTexts(items[i])
    case _ => true
  }

  /** Over any octets, an element that reports more than the buffer holds has a 16-bit string with content in it. */
  lemma {:induction false} OverReports(buf: seq<byte>)
    requires Extract(buf).Got? && Extract(buf).used > |buf|
    ensures !ShortTexts(Extract(buf).elem)
    decreases |buf|, 0
  {
    if IsSeqDtd(buf[0]) {
      var w := SdpBuf.LengthWidth(buf[0]);
      LoopOverReports(buf[1 + w..], AsInt32(FromBE(buf[1..1 + w])));
    }
  }

  lemma {:induction false} LoopOverReports(buf: seq<byte>, left: int)
    requires ExtractItems(buf, left).Items? && ExtractItems(buf, left).used > |buf|
    ensures exists i :: 0 <= i < |ExtractItems(buf, left).elems| && !ShortTexts(ExtractItems(buf, left).elems[i])
    decreases |buf|, 1
  {
    var e, n, all := Extract(buf).elem, Extract(buf).used, ExtractItems(buf, left).elems;
    assert all[0] == e;
    if n > |buf| {
      OverReports(buf);
    } else {
      var es := ExtractItems(buf[n..], left - n).elems;
      LoopOverReports(buf[n..], left - n);
      var i :| 0 <= i < |es| && !ShortTexts(es[i]);
      assert all[i + 1] == es[i];
    }
  }

  /** A sequence whose header is cut short by the end of the buffer. */
  predicate CutHeader(buf: seq<byte>) {
    |buf| > 0 && IsSeqDtd(buf[0]) && |buf| - 1 < SdpBuf.LengthWidth(buf[0])
  }

  /** A sequence loop with `left` octets to come gets to read an element at offset p, itself or in a nested loop. */
  ghost predicate Visits(buf: seq<byte>, left: int, p: nat)
    decreases |buf|, 1
  {
    && left > 0 && p <= |buf|
    && (|| p == 0 || VisitsInside(buf, p)
        || var r := Extract(buf); r.Got? && 0 < r.used <= p && Visits(buf[r.used..], left - r.used, p - r.used))
  }

  /** The same for the loop of the sequence at the front of the buffer. */
  ghost predicate VisitsInside(buf: seq<byte>, p: nat)
    decreases |buf|, 0
  {
    && |buf| > 0 && IsSeqDtd(buf[0])
    && var h := 1 + SdpBuf.LengthWidth(buf[0]);
    h <= p <= |buf| && Visits(buf[h..], AsInt32(FromBE(buf[1..h])), p - h)
  }

  /** Termination, exactly: reading an element never returns if and only if a sequence loop gets to a sequence whose
      header is cut short. */
  lemma HangIff(buf: seq<byte>)
    ensures Extract(buf).Hang? <==> exists p :: 0 <= p <= |buf| && VisitsInside(buf, p) && CutHeader(buf[p..])
  {
    if p :| 0 <= p <= |buf| && VisitsInside(buf, p) && CutHeader(buf[p..]) {
      CutHangs(buf, p);
    }
    if Extract(buf).Hang? {
      var p := HangsAtCut(buf);
    }
  }

  lemma NoProgressIff(buf: seq<byte>)
    ensures Extract(buf).Got? && Extract(buf).used == 0 <==> CutHeader(buf)
  {
    hide ExtractItems, FromBE;
  }

  lemma {:induction false} CutHangs(buf: seq<byte>, p: nat)
    requires p <= |buf| && VisitsInside(buf, p) && CutHeader(buf[p..])
    ensures Extract(buf).Hang?
    decreases |buf|, 0
  {
    var h := 1 + SdpBuf.LengthWidth(buf[0]);
    assert buf[h..][p - h..] == buf[p..];
    LoopCutHangs(buf[h..], AsInt32(FromBE(buf[1..h])), p - h);
  }

  lemma {:induction false} LoopCutHangs(buf: seq<byte>, left: int, p: nat)
    requires Visits(buf, left, p) && CutHeader(buf[p..])
    ensures ExtractItems(buf, left).LoopHang?
    decreases |buf|, 1
  {
    NoProgressIff(buf);
    if p == 0 {
      assert buf[0..] == buf;
    } else if VisitsInside(buf, p) {
      CutHangs(buf, p);
    } else {
      var n := Extract(buf).used;
      assert buf[n..][p - n..] == buf[p..];
      LoopCutHangs(buf[n..], left - n, p - n);
    }
  }

  lemma {:induction false} HangsAtCut(buf: seq<byte>) returns (p: nat)
    requires Extract(buf).Hang?
    ensures p <= |buf| && VisitsInside(buf, p) && CutHeader(buf[p..])
    decreases |buf|, 0
  {
    var h := 1 + SdpBuf.LengthWidth(buf[0]);
    p := LoopHangsAtCut(buf[h..], AsInt32(FromBE(buf[1..h])));
    assert buf[h..][p..] == buf[p + h..];
    p := p + h;
  }

  lemma {:induction false} LoopHangsAtCut(buf: seq<byte>, left: int) returns (p: nat)
    requires ExtractItems(buf, left).LoopHang?
    ensures Visits(buf, left, p) && CutHeader(buf[p..])
    decreases |buf|, 1
  {
    var r := Extract(buf);
    NoProgressIff(buf);
    if r.Hang? {
      p := HangsAtCut(buf);
    } else if r.used == 0 {
      p := 0;
      assert buf[0..] == buf;
    } else {
      p := LoopHangsAtCut(buf[r.used..], left - r.used);
      assert buf[r.used..][p..] == buf[p + r.used..];
      p := p + r.used;
    }
  }

  /** The buffer ends inside what looks like the header of a sequence. */
  ghost predicate EndsInHeader(buf: seq<byte>) {
    exists i :: 0 <= i < |buf| && CutHeader(buf[i..])
  }

  /** So reading always returns, and consumes something, unless the last few octets look like a cut header. */
  lemma Terminates(buf: seq<byte>)
    requires !EndsInHeader(buf)
    ensures !Extract(buf).Hang? && (Extract(buf).Got? ==> Extract(buf).used > 0)
  {
    HangIff(buf);
    assert |buf| > 0 ==> buf[0..] == buf && !CutHeader(buf[0..]);
  }

  // ---- Bounded consumption ----

  predicate IsLongStr(dtd: byte) {
    dtd == TEXT_STR8 + 1 || dtd == URL_STR8 + 1
  }

  /** A 16-bit string that lies within the buffer, but would not if its text were there twice. */
  predicate DoubleCounted(buf: seq<byte>) {
    && |buf| >= 3 && IsLongStr(buf[0])
    && var n := FromBE(buf[1..3]); 3 + n <= |buf| < 3 + 2 * n
  }

  /** The cursor has left the buffer, inside a loop or with the element returned. */
  predicate Leaves(buf: seq<byte>) {
    var r := Extract(buf); r.Overrun? || (r.Got? && r.used > |buf|)
  }

  predicate LoopLeaves(buf: seq<byte>, left: int) {
    var r := ExtractItems(buf, left); r.LoopOverrun? || (r.Items? && r.used > |buf|)
  }

  /** An element is read at offset p: the one asked for, or one inside it. */
  ghost predicate Reads(buf: seq<byte>, p: nat) {
    p <= |buf| && (p == 0 || VisitsInside(buf, p))
  }

  /** Bounded consumption, exactly: the cursor leaves the buffer, or more is reported than the buffer holds, if and only
      if the reader gets to a 16-bit string so near the end that counting its text twice goes beyond it. */
  lemma BoundedIff(buf: seq<byte>)
    ensures Leaves(buf) <==> exists p :: 0 <= p <= |buf| && Reads(buf, p) && DoubleCounted(buf[p..])
  {
    if p :| 0 <= p <= |buf| && Reads(buf, p) && DoubleCounted(buf[p..]) {
      StringLeaves(buf, p);
    }
    if Leaves(buf) {
      var p := LeavesAtString(buf);
    }
  }

  /** Outside sequences only the double count leaves the buffer. */
  lemma PlainLeavesIff(buf: seq<byte>)
    ensures DoubleCounted(buf) ==> Leaves(buf)
    ensures |buf| == 0 || !IsSeqDtd(buf[0]) ==> (Leaves(buf) <==> DoubleCounted(buf))
  {
    hide FromBE;
  }

  lemma SequenceLeavesIff(buf: seq<byte>, h: nat)
    requires |buf| > 0 && IsSeqDtd(buf[0]) && h == 1 + SdpBuf.LengthWidth(buf[0])
    ensures Leaves(buf) <==> h <= |buf| && LoopLeaves(buf[h..], AsInt32(FromBE(buf[1..h])))
  {
    hide FromBE;
    assert Extract(buf) == ExtractSeq(buf);
  }

  /** A loop leaves the buffer with the element it reads, or later. */
  lemma LoopLeavesIff(buf: seq<byte>, left: int)
    ensures LoopLeaves(buf, left)
       <==> && left > 0
            && (|| Leaves(buf)
                || var r := Extract(buf); r.Got? && 0 < r.used <= |buf| && LoopLeaves(buf[r.used..], left - r.used))
  {
    hide Extract;
  }

  lemma {:induction false} StringLeaves(buf: seq<byte>, p: nat)
    requires Reads(buf, p) && DoubleCounted(buf[p..])
    ensures Leaves(buf)
    decreases |buf|, 0
  {
    hide Extract, ExtractItems, FromBE, DoubleCounted, Leaves, LoopLeaves, Visits;
    PlainLeavesIff(buf);
    if p == 0 {
      assert buf[0..] == buf;
    } else {
      var h := 1 + SdpBuf.LengthWidth(buf[0]);
      assert buf[h..][p - h..] == buf[p..];
      LoopStringLeaves(buf[h..], AsInt32(FromBE(buf[1..h])), p - h);
      SequenceLeavesIff(buf, h);
    }
  }

  lemma {:induction false} LoopStringLeaves(buf: seq<byte>, left: int, p: nat)
    requires Visits(buf, left, p) && DoubleCounted(buf[p..])
    ensures LoopLeaves(buf, left)
    decreases |buf|, 1
  {
    hide Extract, ExtractItems, FromBE, DoubleCounted, Leaves, LoopLeaves, VisitsInside;
    LoopLeavesIff(buf, left);
    if p == 0 || VisitsInside(buf, p) {
      StringLeaves(buf, p);
    } else {
      var n := Extract(buf).used;
      assert buf[n..][p - n..] == buf[p..];
      LoopStringLeaves(buf[n..], left - n, p - n);
    }
  }

  lemma {:induction false} LeavesAtString(buf: seq<byte>) returns (p: nat)
    requires Leaves(buf)
    ensures p <= |buf| && Reads(buf, p) && DoubleCounted(buf[p..])
    decreases |buf|, 0
  {
    hide Extract, ExtractItems, FromBE, DoubleCounted, Leaves, LoopLeaves, Visits;
    PlainLeavesIff(buf);
    p := 0;
    if |buf| == 0 || !IsSeqDtd(buf[0]) {
      assert buf[0..] == buf;
    } else {
      var h := 1 + SdpBuf.LengthWidth(buf[0]);
      SequenceLeavesIff(buf, h);
      p := LoopLeavesAtString(buf[h..], AsInt32(FromBE(buf[1..h])));
      assert buf[h..][p..] == buf[p + h..];
      p := p + h;
    }
  }

  lemma {:induction false} LoopLeavesAtString(buf: seq<byte>, left: int) returns (p: nat)
    requires LoopLeaves(buf, left)
    ensures p <= |buf| && Visits(buf, left, p) && DoubleCounted(buf[p..])
    decreases |buf|, 1
  {
    hide Extract, ExtractItems, FromBE, DoubleCounted, Leaves, LoopLeaves, VisitsInside;
    LoopLeavesIff(buf, left);
    if Leaves(buf) {
      p := LeavesAtString(buf);
    } else {
      var n := Extract(buf).used;
      p := LoopLeavesAtString(buf[n..], left - n);
      assert buf[n..][p..] == buf[p + n..];
      p := p + n;
    }
  }

  /** So without a 16-bit string where an element is read, whatever the octets elsewhere, the cursor stays in the buffer
      and no element reports more than the buffer holds. */
  lemma Bounded(buf: seq<byte>)
    requires forall p :: 0 <= p < |buf| && Reads(buf, p) ==> !IsLongStr(buf[p])
    ensures !Extract(buf).Overrun? && (Extract(buf).Got? ==> Extract(buf).used <= |buf|)
  {
    hide Extract, Reads, IsLongStr;
    if Leaves(buf) {
      var p := LeavesAtString(buf);
      StartsWithString(buf, p);
    }
  }

  lemma StartsWithString(buf: seq<byte>, p: nat)
    requires p <= |buf| && DoubleCounted(buf[p..])
    ensures p < |buf| && IsLongStr(buf[p])
  {
  }

  /** A sequence that announces ten octets and holds a one-letter 16-bit string: the loop goes on behind the buffer. */
  lemma LongStringOverruns()
    ensures Extract([0x35, 0x0A, 0x26, 0x00, 0x01, 0x61]) == Overrun
  {
    var b: seq<byte>, r: seq<byte> := [0x35, 0x0A, 0x26, 0x00, 0x01, 0x61], [0x26, 0x00, 0x01, 0x61];
    assert b[1..2] == [0x0A] && b[2..] == r;
    FromBEOne(0x0A);
    LongStringMiscounted();
    assert Extract(r) == Got(Str(false, 2, [0x61]), 5);
    assert ExtractItems(r, 10) == LoopOverrun;
  }
}

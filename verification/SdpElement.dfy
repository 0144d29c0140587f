/** SDP data elements (sdp_data_t) and the octets sdp_gen_pdu prints for them. */
module SdpElement {
  import opened Bytes

  datatype Uuid = Uuid16(v16: nat) | Uuid32(v32: nat) | Uuid128(octets: seq<byte>)

  datatype NumKind = UInt | SInt | Bool

  /** A data element: the descriptor octet is the kind together with the width of the value or of the length field.
      Signed integers are held as their two's complement bit pattern, as in the source's union. */
  datatype Element =
    | Nil
    | Num(kind: NumKind, width: nat, bits: nat)
    | Id(uuid: Uuid)
    | Str(url: bool, width: nat, text: seq<byte>)
    | List(alt: bool, width: nat, items: seq<Element>)

  const DATA_NIL: byte := 0x00
  const UINT8: byte := 0x08
  const UINT16: byte := 0x09
  const INT8: byte := 0x10
  const UUID16: byte := 0x19
  const UUID32: byte := 0x1A
  const UUID128: byte := 0x1C
  const TEXT_STR8: byte := 0x25
  const BOOL: byte := 0x28
  const SEQ8: byte := 0x35
  const SEQ16: byte := 0x36
  const SEQ32: byte := 0x37
  const ALT8: byte := 0x3D
  const URL_STR8: byte := 0x45

  /** The values an sdp_data_t can hold: legal widths, values in range, at every depth. */
  ghost predicate Typed(e: Element) {
    match e
    case Nil => true
    case Num(kind, w, v) => w in {1, 2, 4, 8, 16} && (kind.Bool? ==> w == 1) && v < Pow256(w)
    case Id(u) => TypedUuid(u)
    case Str(_, w, _) => w in {1, 2, 4}
    case List(_, w, items) => w in {1, 2, 4} && forall i :: 0 <= i < |items| ==> Typed(items[i])
  }

  predicate TypedUuid(u: Uuid) {
    match u
    case Uuid16(v) => v < 0x1_0000
    case Uuid32(v) => v < 0x1_0000_0000
    case Uuid128(s) => |s| == 16
  }

  /** Offset of a size within a family of descriptors: 1, 2, 4, 8, 16 octets. */
  function SizeIndex(w: nat): nat {
    if w == 1 then 0 else if w == 2 then 1 else if w == 4 then 2 else if w == 8 then 3 else 4
  }

  function Dtd(e: Element): byte {
    match e
    case Nil => DATA_NIL
    case Num(UInt, w, _) => UINT8 + SizeIndex(w)
    case Num(SInt, w, _) => INT8 + SizeIndex(w)
    case Num(Bool, _, _) => BOOL
    case Id(Uuid16(_)) => UUID16
    case Id(Uuid32(_)) => UUID32
    case Id(Uuid128(_)) => UUID128
    case Str(url, w, _) => (if url then URL_STR8 else TEXT_STR8) + SizeIndex(w)
    case List(alt, w, _) => (if alt then ALT8 else SEQ8) + SizeIndex(w)
  }

  function UuidOctets(u: Uuid): seq<byte> {
    match u
    case Uuid16(v) => BE(2, v)
    case Uuid32(v) => BE(4, v)
    case Uuid128(s) => s
  }

  /** The wire form of an element: descriptor, length field where there is one (truncated to its width), value. */
  function Encode(e: Element): (s: seq<byte>)
    ensures |s| > 0 && s[0] == Dtd(e)
    decreases e, 1
  {
    match e
    case Nil => [Dtd(e)]
    case Num(_, w, v) => [Dtd(e)] + BE(w, v)
    case Id(u) => [Dtd(e)] + UuidOctets(u)
    case Str(_, w, text) => [Dtd(e)] + BE(w, |text|) + text
    case List(_, w, items) => [Dtd(e)] + BE(w, |EncodeAll(items)|) + EncodeAll(items)
  }

  function EncodeAll(items: seq<Element>): seq<byte>
    decreases items, 0
  {
    if items == [] then [] else Encode(items[0]) + EncodeAll(items[1..])
  }

  // ---- the descriptor octet ----

  /** The data element types by their numbers. */
  function TypeNumber(e: Element): nat {
    match e
    case Nil => 0
    case Num(UInt, _, _) => 1
    case Num(SInt, _, _) => 2
    case Id(_) => 3
    case Str(false, _, _) => 4
    case Num(Bool, _, _) => 5
    case List(false, _, _) => 6
    case List(true, _, _) => 7
    case Str(true, _, _) => 8
  }

  /** Octets by size index: of the value for indices 0 to 4, of the length field for 5 to 7. */
  const SIZES: seq<nat> := [1, 2, 4, 8, 16, 1, 2, 4]

  /** The descriptor is the type number, then the size index in its low three bits. With an index below 5 the value has
      exactly that many octets (none for nil); from 5 on a length field of that many octets precedes the content. */
  lemma Descriptor(e: Element)
    requires Typed(e)
    ensures var d: nat := Encode(e)[0];
            && d / 8 == TypeNumber(e) && (d % 8 >= 5 <==> e.Str? || e.List?)
            && (d % 8 < 5 && !e.Nil? ==> |Encode(e)| == 1 + SIZES[d % 8])
    ensures e.Nil? ==> Encode(e) == [0]
    ensures e.Str? || e.List? ==>
              var w, body := SIZES[Encode(e)[0] % 8], if e.Str? then e.text else EncodeAll(e.items);
              Encode(e) == [Encode(e)[0]] + BE(w, |body|) + body
  {
    hide BE, EncodeAll, Pow256;
    if e.Num? {
      NumDescriptor(e);
    } else if e.Str? || e.List? {
      hide Typed;
      LengthDescriptor(e);
    }
  }

  lemma NumDescriptor(e: Element)
    requires Typed(e) && e.Num?
    ensures var d: nat := Dtd(e); d / 8 == TypeNumber(e) && d % 8 < 5 && SIZES[d % 8] == e.width
  {
    hide Pow256;
  }

  lemma LengthDescriptor(e: Element)
    requires Typed(e) && (e.Str? || e.List?)
    ensures var d: nat := Dtd(e); d / 8 == TypeNumber(e) && d % 8 >= 5 && SIZES[d % 8] == e.width
  {
  }

  lemma {:induction false} EncodeAllConcat(a: seq<Element>, b: seq<Element>)
    ensures EncodeAll(a + b) == EncodeAll(a) + EncodeAll(b)
  {
    if a == [] {
      assert a + b == b;
    } else {
      assert (a + b)[1..] == a[1..] + b;
      EncodeAllConcat(a[1..], b);
    }
  }

  lemma EncodeAllStep(items: seq<Element>, i: nat)
    requires i < |items|
    ensures EncodeAll(items[..i + 1]) == EncodeAll(items[..i]) + Encode(items[i])
    ensures |EncodeAll(items[..i + 1])| <= |EncodeAll(items)|
  {
    assert items[..i + 1] == items[..i] + [items[i]] && items == items[..i + 1] + items[i + 1..];
    EncodeAllConcat(items[..i], [items[i]]);
    assert EncodeAll([items[i]]) == Encode(items[i]) + EncodeAll([]);
    EncodeAllConcat(items[..i + 1], items[i + 1..]);
  }

  /** All UUIDs of an element, at any depth, in print order. */
  function Uuids(e: Element): seq<Uuid>
    decreases e, 1
  {
    match e
    case Id(u) => [u]
    case List(_, _, items) => UuidsAll(items)
    case _ => []
  }

  function UuidsAll(items: seq<Element>): seq<Uuid>
    decreases items, 0
  {
    if items == [] then [] else Uuids(items[0]) + UuidsAll(items[1..])
  }

  /** The UUID is the element or stands somewhere inside it. */
  ghost predicate Occurs(u: Uuid, e: Element) {
    e == Id(u) || (e.List? && exists i :: 0 <= i < |e.items| && Occurs(u, e.items[i]))
  }

  lemma {:induction false} UuidsOccur(e: Element, u: Uuid)
    ensures u in Uuids(e) <==> Occurs(u, e)
    decreases e, 1
  {
    if e.List? {
      UuidsAllOccur(e.items, u);
    }
  }

  lemma {:induction false} UuidsAllOccur(items: seq<Element>, u: Uuid)
    ensures u in UuidsAll(items) <==> exists i :: 0 <= i < |items| && Occurs(u, items[i])
    decreases items, 0
  {
    if items != [] {
      var rest := items[1..];
      UuidsOccur(items[0], u);
      UuidsAllOccur(rest, u);
      assert forall i :: 0 <= i < |rest| ==> rest[i] == items[i + 1];
      assert forall i :: 0 < i < |items| ==> items[i] == rest[i - 1];
    }
  }
}

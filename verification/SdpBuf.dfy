/** sdp_buf_t: the growing PDU buffer, printed into in place with length fields patched afterwards. */
module SdpBuf {
  import opened Bytes
  import opened SdpElement

  const CHUNK_SIZE := 1024

  /** An attribute of a service record. */
  datatype Attr = Attr(id: nat, value: Element)

  function AttrPdu(a: Attr): seq<byte> {
    [UINT16] + BE(2, a.id) + Encode(a.value)
  }

  /** An attribute starts with its id as an unsigned 16-bit integer. */
  lemma AttrHeader(a: Attr)
    requires a.id < 0x1_0000
    ensures AttrPdu(a) == [0x09, a.id / 256, a.id % 256] + Encode(a.value)
  {
    hide Encode;
    assert BE(2, a.id) == BE(1, a.id / 256) + [a.id % 256];
    assert BE(1, a.id / 256) == BE(0, a.id / 256 / 256) + [a.id / 256];
  }

  /** A data element sequence with descriptor `dtd` around `body`. */
  function Frame(dtd: byte, body: seq<byte>): seq<byte> {
    [dtd] + BE(LengthWidth(dtd), |body|) + body
  }

  /** The sequence an append run leaves: an 8-bit header is given up for a 16-bit one
      as soon as header and body together exceed 255 octets. */
  function Seal(dtd: byte, body: seq<byte>): seq<byte> {
    Frame(if dtd == SEQ8 && 2 + |body| > 255 then SEQ16 else dtd, body)
  }

  function Kind(s: seq<byte>): byte {
    if s == [] then SEQ8 else s[0]
  }

  function Body(s: seq<byte>): seq<byte> {
    if s == [] || |s| < 1 + LengthWidth(s[0]) then [] else s[1 + LengthWidth(s[0])..]
  }

  predicate Framed(s: seq<byte>) {
    s == [] || (s[0] in {SEQ8, SEQ16, SEQ32} && s == Seal(s[0], Body(s)))
  }

  /** Width of the length field that follows a descriptor, 0 for elements of fixed size. */
  function LengthWidth(dtd: byte): nat {
    if dtd == SEQ8 || dtd == ALT8 || dtd == TEXT_STR8 || dtd == URL_STR8 then 1
    else if dtd == SEQ8 + 1 || dtd == ALT8 + 1 || dtd == TEXT_STR8 + 1 || dtd == URL_STR8 + 1 then 2
    else if dtd == SEQ8 + 2 || dtd == ALT8 + 2 || dtd == TEXT_STR8 + 2 || dtd == URL_STR8 + 2 then 4
    else 0
  }

  class Buf {
    var data: array<byte>
    var size: nat

    constructor (capacity: nat)
      ensures data.Length == capacity && size == 0 && fresh(data)
      ensures forall i :: 0 <= i < capacity ==> data[i] == 0
    {
      data := new byte[capacity](_ => 0);
      size := 0;
    }

    ghost predicate Valid()
      reads this
    {
      size <= data.Length
    }

    ghost function Contents(): seq<byte>
      requires Valid()
      reads this, data
    {
      data[..size]
    }

    /** memcpy to a position of the buffer. */
    method Put(pos: nat, src: seq<byte>)
      requires pos + |src| <= data.Length
      modifies data
      ensures data[..] == old(data[..pos]) + src + old(data[pos + |src|..])
    {
      var i := 0;
      while i < |src|
        invariant 0 <= i <= |src|
        invariant data[..] == old(data[..pos]) + src[..i] + old(data[pos + i..])
      {
        data[pos + i] := src[i];
        i := i + 1;
        assert src[..i] == src[..i - 1] + [src[i - 1]];
      }
      assert src[..i] == src;
    }

    method SetDataType(dtd: byte) returns (n: nat)
      requires Valid() && size + 1 + LengthWidth(dtd) <= data.Length
      modifies this`size, data
      ensures Valid() && n == 1 + LengthWidth(dtd) && size == old(size) + n
      ensures Contents()[..old(size) + 1] == old(Contents()) + [dtd]
    {
      var orig := size;
      data[size] := dtd;
      size := size + 1 + LengthWidth(dtd);
      n := size - orig;
    }

    /** Patches the length field of the element whose descriptor is at `pos`. */
    method SetSeqLen(pos: nat, length: nat)
      requires Valid() && pos < size && pos + 1 + LengthWidth(data[pos]) <= size
      modifies data
      ensures Contents() == Patch(old(Contents()), pos, BE(LengthWidth(old(data[pos])), length))
    {
      hide BE, LengthWidth;
      var field := BE(LengthWidth(data[pos]), length);
      ghost var before := data[..];
      Put(pos + 1, field);
      Within(before, size, pos + 1, field);
    }

    /** sdp_gen_pdu: whatever the nesting, the element's wire form is appended, nothing before it changes,
        and the count returned is the number of octets appended. */
    method GenPdu(d: Element) returns (n: nat)
      requires Valid() && Typed(d) && size + |Encode(d)| <= data.Length
      modifies this`size, data
      ensures Valid() && Contents() == old(Contents()) + Encode(d)
      ensures n == |Encode(d)|
      decreases d, 1
    {
      var pos := size;
      EncodeParts(d);
      n := SetDataType(Dtd(d));
      ghost var head := Contents();
      assert head[pos] == Dtd(d) && head[..pos] == old(Contents()) by {
        assert head[pos] == head[..pos + 1][pos] && head[..pos] == head[..pos + 1][..pos];
      }
      var m: nat;
      if d.List? {
        m := GenItems(d.items);
        assert data[pos] == Contents()[pos];
        SetSeqLen(pos, m);
      } else {
        m := |Value(d)|;
        if d.Str? {
          SetSeqLen(pos, m);
        }
        Append(Value(d));
      }
      Assembled(head, pos, Dtd(d), BE(LengthWidth(Dtd(d)), m), Value(d));
      n := n + m;
    }

    method Append(src: seq<byte>)
      requires Valid() && size + |src| <= data.Length
      modifies this`size, data
      ensures Valid() && Contents() == old(Contents()) + src
    {
      Put(size, src);
      size := size + |src|;
    }

    /** get_data_size: prints the elements of a sequence one after the other. */
    method GenItems(items: seq<Element>) returns (n: nat)
      requires Valid() && (forall i :: 0 <= i < |items| ==> Typed(items[i]))
      requires size + |EncodeAll(items)| <= data.Length
      modifies this`size, data
      ensures Valid() && Contents() == old(Contents()) + EncodeAll(items)
      ensures n == |EncodeAll(items)|
      decreases items, 0
    {
      hide Encode, Typed;
      n := 0;
      var i := 0;
      assert items[..0] == [] && EncodeAll([]) == [] && Contents() + [] == Contents();
      while i < |items|
        invariant 0 <= i <= |items|
        invariant Valid() && Contents() == old(Contents()) + EncodeAll(items[..i])
        invariant n == |EncodeAll(items[..i])|
      {
        hide EncodeAll;
        EncodeAllStep(items, i);
        ghost var done := EncodeAll(items[..i]);
        var m := GenPdu(items[i]);
        assert old(Contents()) + done + Encode(items[i]) == old(Contents()) + (done + Encode(items[i]));
        n := n + m;
        i := i + 1;
      }
      assert items[..i] == items;
    }

    /** Between two appends the buffer is empty and zeroed, or one sequence with a correct header. */
    ghost predicate Ready()
      reads this, data
    {
      && Valid() && data.Length > 0 && Framed(Contents())
      && (size == 0 ==> data[0] == 0)
    }

    /** Buffer size after the growth step of an append. */
    function GrownTo(len: nat): nat
      reads this, data
    {
      if size + len > data.Length then data.Length + CHUNK_SIZE * (len / CHUNK_SIZE + 1) else data.Length
    }

    /** The buffer grows only when the new octets do not fit, and then by the first multiple of 1024 above their number. */
    lemma GrowthIs(len: nat)
      ensures size + len <= data.Length ==> GrownTo(len) == data.Length
      ensures size + len > data.Length ==>
                var more := GrownTo(len) - data.Length; more % 1024 == 0 && more - 1024 <= len < more
    {
    }

    /** No octet of the append, header and one-octet shift included, falls outside the grown buffer; and the
        buffer does not move under the pointer through which the first header is written. */
    ghost predicate RoomFor(len: nat)
      requires data.Length > 0
      reads this, data
    {
      && (size == 0 ==> len <= data.Length)
      && var total := (if size == 0 then 2 else size) + len;
      && total <= GrownTo(len)
      && (total > 255 && (size == 0 || data[0] == SEQ8) ==> total + 1 <= GrownTo(len))
    }

    /** sdp_append_to_buf: the body grows by exactly `src`, the header is widened when it has to be,
        and the length field is the body's length (modulo its width). */
    method AppendToBuf(src: seq<byte>)
      requires Ready() && RoomFor(|src|)
      modifies this, data
      ensures Ready() && (data == old(data) || fresh(data))
      ensures data.Length == old(GrownTo(|src|)) && size > 0
      ensures Contents() == Seal(Kind(old(Contents())), Body(old(Contents())) + src)
    {
      hide BE, LengthWidth, Seal, Framed;
      ghost var dtd, body := Kind(Contents()), Body(Contents());
      Begin(|src|);
      ghost var head, w := Contents(), 1 + LengthWidth(dtd);
      assert head[0] == dtd;
      Append(src);
      ghost var all := Contents();
      assert all[0] == head[0] && all[w..] == head[w..] + src;
      assert data[0] == all[0];
      FixHeader();
      assert Contents() == Seal(dtd, all[w..]);
      SealFramed(dtd, body + src);
    }

    /** The first half of an append: makes room, and starts the header of an empty buffer. */
    method Begin(len: nat)
      requires Ready() && RoomFor(len)
      modifies this, data
      ensures Valid() && (data == old(data) || fresh(data)) && data.Length == old(GrownTo(len))
      ensures size == if old(size) == 0 then 2 else old(size)
      ensures data[0] == Kind(old(Contents())) && data[0] in {SEQ8, SEQ16, SEQ32} && size >= 1 + LengthWidth(data[0])
      ensures Contents()[1 + LengthWidth(data[0])..] == Body(old(Contents()))
    {
      hide BE;
      Headers(Contents());
      var dtd := data[0];
      Grow(len);
      assert size > 0 ==> Contents()[0] == data[0];
      if size == 0 && dtd == 0 {
        data[0] := SEQ8;
        size := 2;
      }
    }

    /** The second half of an append: widens the header if need be and sets the length field. */
    method FixHeader()
      requires Valid() && size > 0 && data[0] in {SEQ8, SEQ16, SEQ32} && size >= 1 + LengthWidth(data[0])
      requires size > 255 && data[0] == SEQ8 ==> size < data.Length
      modifies this`size, data
      ensures Valid() && size > 0
      ensures Contents() == Seal(old(data[0]), old(Contents()[1 + LengthWidth(data[0])..]))
    {
      hide BE, Frame;
      ghost var dtd, body := data[0], Contents()[1 + LengthWidth(data[0])..];
      if size > 255 && data[0] == SEQ8 {
        Widen();
      }
      var w := LengthWidth(data[0]);
      ghost var all := Contents();
      assert all[0] == data[0] && all[1 + w..] == body;
      assert Frame(all[0], body) == Seal(dtd, body);
      SetSeqLen(0, size - 1 - w);
      Patched(all, w);
    }

    /** memmove: turns the two-octet header of a full 8-bit sequence into a three-octet one. */
    method Widen()
      requires Valid() && 2 <= size < data.Length
      modifies this`size, data
      ensures Valid() && size == old(size) + 1
      ensures Contents()[0] == SEQ16 && Contents()[3..] == old(Contents()[2..])
    {
      Put(3, data[2..size]);
      data[0] := SEQ16;
      size := size + 1;
    }

    /** realloc in steps of SDP_PDU_CHUNK_SIZE. */
    method Grow(len: nat)
      requires Valid() && data.Length > 0
      modifies this`data
      ensures data == old(data) || fresh(data)
      ensures data.Length == old(GrownTo(len)) && Valid() && Contents() == old(Contents())
      ensures data[0] == old(data[0])
    {
      if size + len > data.Length {
        var need := CHUNK_SIZE * (len / CHUNK_SIZE + 1);
        var grown := new byte[data.Length + need];
        forall i | 0 <= i < data.Length {
          grown[i] := data[i];
        }
        data := grown;
      }
    }

    /** sdp_append_to_pdu: one attribute, printed in a scratch buffer of 256 octets first. */
    method AppendToPdu(a: Attr)
      requires Ready() && data.Length >= CHUNK_SIZE && Typed(a.value) && |AttrPdu(a)| <= 256
      modifies this, data
      ensures Ready() && (data == old(data) || fresh(data)) && data.Length >= CHUNK_SIZE
      ensures size > 0 && Contents() == Seal(Kind(old(Contents())), Body(old(Contents())) + AttrPdu(a))
    {
      var scratch := new Buf(256);
      scratch.Append([UINT16] + BE(2, a.id));
      var n := scratch.GenPdu(a.value);
      assert scratch.Contents() == AttrPdu(a);
      RoomForAttribute(|AttrPdu(a)|);
      AppendToBuf(scratch.data[..scratch.size]);
    }

    /** Appends of at most 256 octets never leave the buffer, in any state an append run can reach. */
    lemma RoomForAttribute(len: nat)
      requires Ready() && data.Length >= CHUNK_SIZE && len <= 256
      ensures RoomFor(len)
    {
      if size != 0 && data[0] == SEQ8 {
        assert Contents()[0] == SEQ8;
        SealedSize(Contents());
      }
    }
  }

  ghost function Patch(s: seq<byte>, pos: nat, field: seq<byte>): seq<byte>
    requires pos + 1 + |field| <= |s|
  {
    s[..pos + 1] + field + s[pos + 1 + |field|..]
  }

  /** Overwriting inside the first n octets patches those n. */
  lemma Within(all: seq<byte>, n: nat, at: nat, field: seq<byte>)
    requires at + |field| <= n <= |all|
    ensures (all[..at] + field + all[at + |field|..])[..n] == all[..n][..at] + field + all[..n][at + |field|..]
  {
    assert all[at + |field|..] == all[at + |field|..n] + all[n..];
  }

  /** Reserving a header, printing a body and patching the header gives descriptor, field, body;
      so does patching before the body is printed. */
  lemma Assembled(head: seq<byte>, pos: nat, dtd: byte, field: seq<byte>, body: seq<byte>)
    requires |head| == pos + 1 + |field| && head[pos] == dtd
    ensures Patch(head + body, pos, field) == head[..pos] + ([dtd] + field + body)
    ensures Patch(head, pos, field) + body == head[..pos] + ([dtd] + field + body)
    ensures field == [] ==> head + body == head[..pos] + ([dtd] + field + body)
  {
    assert head[..pos + 1] == head[..pos] + [dtd];
    assert (head + body)[..pos + 1] == head[..pos + 1] && (head + body)[|head|..] == body;
    assert head[|head|..] == [];
  }

  lemma Headers(s: seq<byte>)
    requires Framed(s)
    ensures LengthWidth(SEQ8) == 1 && LengthWidth(SEQ16) == 2
    ensures Kind(s) in {SEQ8, SEQ16, SEQ32} && (s != [] ==> |s| >= 1 + LengthWidth(s[0]))
  {
  }

  /** What follows the descriptor and the length field. */
  function Value(d: Element): seq<byte> {
    match d
    case Nil => []
    case Num(_, w, v) => BE(w, v)
    case Id(u) => UuidOctets(u)
    case Str(_, _, text) => text
    case List(_, _, items) => EncodeAll(items)
  }

  lemma EncodeParts(d: Element)
    requires Typed(d)
    ensures LengthWidth(Dtd(d)) == if d.Str? || d.List? then d.width else 0
    ensures Encode(d) == [Dtd(d)] + BE(LengthWidth(Dtd(d)), |Value(d)|) + Value(d)
  {
  }

  lemma Patched(s: seq<byte>, w: nat)
    requires |s| >= 1 + w && w == LengthWidth(s[0])
    ensures Patch(s, 0, BE(w, |s| - 1 - w)) == Frame(s[0], s[1 + w..])
  {
  }

  lemma SealFramed(dtd: byte, body: seq<byte>)
    requires dtd in {SEQ8, SEQ16, SEQ32}
    ensures Framed(Seal(dtd, body)) && Body(Seal(dtd, body)) == body
  {
    var s := Seal(dtd, body);
    assert s[1 + LengthWidth(s[0])..] == body;
  }

  lemma SealedSize(s: seq<byte>)
    requires Framed(s) && s != [] && s[0] == SEQ8
    ensures |s| <= 255
  {
  }

  /** The header of an append run: 8-bit exactly while the whole PDU is at most 255 octets, 16-bit from then on, and its
      length field is the body's length exactly while that is at most 65535. */
  lemma SealedShape(body: seq<byte>)
    ensures var s := Seal(SEQ8, body); var w := LengthWidth(s[0]);
            && s[0] == (if |s| <= 255 then SEQ8 else SEQ16) && |s| == 1 + w + |body| && s[1 + w..] == body
            && (FromBE(s[1..1 + w]) == |body| <==> |body| <= 65535)
  {
    hide BE, FromBE, Pow256;
    var s := Seal(SEQ8, body);
    var w := LengthWidth(s[0]);
    assert s[1..1 + w] == BE(w, |body|);
    FromBEofBE(w, |body|);
    Pow256Values();
  }

  /** Appends compose: what is already sealed and appended to is what sealing it all at once gives. */
  lemma SealAgain(body: seq<byte>, src: seq<byte>)
    ensures Framed(Seal(SEQ8, body)) && Body(Seal(SEQ8, body)) == body
    ensures Seal(Kind(Seal(SEQ8, body)), body + src) == Seal(SEQ8, body + src)
  {
    SealFramed(SEQ8, body);
  }
}

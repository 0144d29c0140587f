/** Short and full UUIDs. */
module SdpUuid {
  import opened Bytes
  import opened SdpElement

  /** 00000000-0000-1000-8000-00805F9B34FB */
  const BASE: seq<byte> := [0x00, 0x00, 0x00, 0x00, 0x00, 0x00, 0x10, 0x00, 0x80, 0x00, 0x00, 0x80, 0x5F, 0x9B, 0x34, 0xFB]

  /** sdp_uuid_to_uuid128: a short form is added to the (zero) leading octets of the base. */
  function Widen(u: Uuid): (s: seq<byte>)
    ensures TypedUuid(u) ==> |s| == 16
  {
    match u
    case Uuid16(v) => BASE[..2] + BE(2, v) + BASE[4..]
    case Uuid32(v) => BE(4, v) + BASE[4..]
    case Uuid128(s) => s
  }

  /** The shortest spelling sdp_uuid128_to_uuid finds; short forms are left as they are. */
  function Narrow(u: Uuid): Uuid
    requires TypedUuid(u)
  {
    if u.Uuid128? && u.octets[4..] == BASE[4..] then
      var v := FromBE(u.octets[..4]);
      if v <= 0xffff then Uuid16(v) else Uuid32(v)
    else u
  }

  method ToShortForm(u: Uuid) returns (r: Uuid, short: bool)
    requires TypedUuid(u)
    ensures r == Narrow(u) && short == !r.Uuid128?
  {
    if !u.Uuid128? {
      return u, true;
    }
    var i := 4;
    while i < 16
      invariant 4 <= i <= 16 && forall j :: 4 <= j < i ==> u.octets[j] == BASE[j]
    {
      if BASE[i] != u.octets[i] {
        assert u.octets[4..][i - 4] != BASE[4..][i - 4];
        return u, false;
      }
      i := i + 1;
    }
    assert u.octets[4..] == BASE[4..];
    var v := FromBE(u.octets[..4]);
    r := if v <= 0xffff then Uuid16(v) else Uuid32(v);
    short := true;
  }

  /** The value of a short form. */
  function ShortValue(u: Uuid): nat
    requires !u.Uuid128?
  {
    if u.Uuid16? then u.v16 else u.v32
  }

  /** The full form of a short UUID, octet by octet: the value in front of the base UUID. */
  lemma WidenIs(u: Uuid)
    requires TypedUuid(u) && !u.Uuid128?
    ensures var v := ShortValue(u);
            Widen(u) == [v / 0x100_0000, v / 0x1_0000 % 256, v / 256 % 256, v % 256,
                         0x00, 0x00, 0x10, 0x00, 0x80, 0x00, 0x00, 0x80, 0x5F, 0x9B, 0x34, 0xFB]
  {
    hide BE;
    var v := ShortValue(u);
    if u.Uuid32? {
      BEFour(v);
    } else {
      BETwo(v);
      assert v / 0x100_0000 == 0 && v / 0x1_0000 == 0;
    }
  }

  lemma BETwo(v: nat)
    ensures BE(2, v) == [v / 256 % 256, v % 256]
  {
    assert BE(1, v / 256) == BE(0, v / 256 / 256) + [v / 256 % 256];
  }

  lemma BEFour(v: nat)
    requires v < 0x1_0000_0000
    ensures BE(4, v) == [v / 0x100_0000, v / 0x1_0000 % 256, v / 256 % 256, v % 256]
  {
    BETwo(v / 256 / 256);
    assert BE(4, v) == BE(2, v / 256 / 256) + [v / 256 % 256] + [v % 256];
    hide BE;
    assert v / 256 / 256 == v / 0x1_0000 && v / 0x1_0000 / 256 == v / 0x100_0000;
  }

  lemma WidenShort(u: Uuid)
    requires TypedUuid(u) && !u.Uuid128?
    ensures FromBE(Widen(u)[..4]) == ShortValue(u) && Widen(u)[4..] == BASE[4..]
  {
    Pow256Values();
    var s := Widen(u)[..4];
    match u {
      case Uuid16(v) =>
        assert s == [0, 0] + BE(2, v);
        FromBEConcat([0, 0], BE(2, v));
        assert FromBE([0, 0]) == 256 * FromBE([0, 0][..1]);
        assert [0, 0][..1] == [0];
        BERoundTrip(2, v);
      case Uuid32(v) =>
        assert s == BE(4, v);
        BERoundTrip(4, v);
    }
  }

  /** Widening then narrowing keeps the numeric value of a short form, and spells it in 16 bits when it fits. */
  lemma NarrowWiden(u: Uuid)
    requires TypedUuid(u) && !u.Uuid128?
    ensures var n := Narrow(Uuid128(Widen(u)));
            !n.Uuid128? && ShortValue(n) == ShortValue(u) && (n.Uuid16? <==> ShortValue(u) <= 0xffff)
  {
    WidenShort(u);
  }

  /** Narrowing never changes which UUID is meant. */
  lemma WidenNarrow(u: Uuid)
    requires TypedUuid(u)
    ensures TypedUuid(Narrow(u)) && Widen(Narrow(u)) == Widen(u)
  {
    if Narrow(u) != u {
      Pow256Values();
      FromBEBound(u.octets[..4]);
      assert |u.octets[..4]| == 4;
      WidenShort(Narrow(u));
      var w := Widen(Narrow(u));
      FromBEInjective(w[..4], u.octets[..4]);
      assert w == w[..4] + w[4..] && u.octets == u.octets[..4] + u.octets[4..];
    }
  }

  /** Two spellings have the same full form exactly when they narrow to the same thing; for two short
      forms, exactly when their values agree. */
  lemma SameUuid(a: Uuid, b: Uuid)
    requires TypedUuid(a) && TypedUuid(b)
    ensures Widen(a) == Widen(b) <==> Narrow(Uuid128(Widen(a))) == Narrow(Uuid128(Widen(b)))
    ensures !a.Uuid128? && !b.Uuid128? ==> (Widen(a) == Widen(b) <==> ShortValue(a) == ShortValue(b))
  {
    WidenNarrow(Uuid128(Widen(a)));
    WidenNarrow(Uuid128(Widen(b)));
    if !a.Uuid128? && !b.Uuid128? {
      WidenShort(a);
      WidenShort(b);
      if ShortValue(a) == ShortValue(b) {
        FromBEInjective(Widen(a)[..4], Widen(b)[..4]);
        assert Widen(a) == Widen(a)[..4] + Widen(a)[4..] && Widen(b) == Widen(b)[..4] + Widen(b)[4..];
      }
    }
  }
}

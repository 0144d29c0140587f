/** AVDTP service capabilities: the list parser and the serialisation it inverts. */
module AvdtpCaps {
  import opened Bytes

  const MEDIA_CODEC: byte := 0x07

  /** struct avdtp_service_capability; the length octet is the length of `data`. */
  datatype Cap = Cap(category: byte, data: seq<byte>)

  type Caps = caps: seq<Cap> | forall c :: c in caps ==> |c.data| < 256

  function CapOctets(c: Cap): seq<byte>
    requires |c.data| < 256
  {
    [c.category, |c.data|] + c.data
  }

  function Serialised(caps: Caps): seq<byte> {
    if caps == [] then [] else CapOctets(caps[0]) + Serialised(caps[1..])
  }

  lemma {:induction false} SerialisedSnoc(caps: Caps, c: Cap)
    requires |c.data| < 256
    ensures Serialised(caps + [c]) == Serialised(caps) + CapOctets(c)
  {
    if caps == [] {
      assert Serialised([c]) == CapOctets(c) + Serialised([]);
    } else {
      assert (caps + [c])[1..] == caps[1..] + [c];
      SerialisedSnoc(caps[1..], c);
    }
  }

  /** The two loops of avdtp_set_configuration: size the request, then copy the capabilities into it. */
  method Serialise(caps: Caps) returns (req: array<byte>)
    ensures fresh(req) && req[..] == Serialised(caps)
  {
    var capsLen, i := 0, 0;
    while i < |caps|
      invariant 0 <= i <= |caps| && capsLen == |Serialised(caps[..i])|
    {
      assert caps[..i + 1] == caps[..i] + [caps[i]];
      SerialisedSnoc(caps[..i], caps[i]);
      capsLen := capsLen + |caps[i].data| + 2;
      i := i + 1;
    }
    assert caps[..i] == caps;
    req := new byte[capsLen](_ => 0);
    var ptr, j := 0, 0;
    while j < |caps|
      invariant 0 <= j <= |caps| && ptr == |Serialised(caps[..j])| <= req.Length
      invariant req[..ptr] == Serialised(caps[..j])
    {
      CopyStep(caps, j);
      var src := CapOctets(caps[j]);
      forall k | 0 <= k < |src| {
        req[ptr + k] := src[k];
      }
      assert req[..ptr + |src|] == Serialised(caps[..j]) + src;
      ptr := ptr + |src|;
      j := j + 1;
    }
    assert caps[..j] == caps && req[..ptr] == req[..];
  }

  lemma CopyStep(caps: Caps, j: nat)
    requires j < |caps|
    ensures Serialised(caps[..j + 1]) == Serialised(caps[..j]) + CapOctets(caps[j])
    ensures |Serialised(caps[..j + 1])| <= |Serialised(caps)|
  {
    assert caps[..j + 1] == caps[..j] + [caps[j]];
    SerialisedSnoc(caps[..j], caps[j]);
    PrefixLength(caps, j + 1);
  }

  lemma {:induction false} PrefixLength(caps: Caps, n: nat)
    requires n <= |caps|
    ensures |Serialised(caps[..n])| <= |Serialised(caps)|
  {
    if n > 0 {
      assert caps[..n][1..] == caps[1..][..n - 1];
      PrefixLength(caps[1..], n - 1);
    }
  }

  /** caps_to_list: a capability is taken while more than its two header octets are left and it fits. */
  function Parsed(data: seq<byte>): Caps {
    if Fits(data) then [First(data)] + Parsed(data[2 + |First(data).data|..]) else []
  }

  predicate Fits(data: seq<byte>) {
    2 < |data| && 2 + data[1] <= |data|
  }

  function First(data: seq<byte>): (c: Cap)
    requires Fits(data)
    ensures |c.data| == data[1] && 2 + |c.data| <= |data|
  {
    var n: nat := data[1];
    Cap(data[0], data[2..2 + n])
  }

  /** Nothing is invented and nothing skipped: the capabilities parsed are the octets at the front of the data, as many
      as fit, and what is left over does not hold another one. */
  lemma {:induction false} ParsedPrefix(data: seq<byte>)
    ensures |Serialised(Parsed(data))| <= |data| && Serialised(Parsed(data)) == data[..|Serialised(Parsed(data))|]
    ensures !Fits(data[|Serialised(Parsed(data))|..])
  {
    if Fits(data) {
      var n, c := 2 + |First(data).data|, First(data);
      var rest := Parsed(data[n..]);
      ParsedPrefix(data[n..]);
      var m := |Serialised(rest)|;
      assert Serialised([c] + rest) == CapOctets(c) + Serialised(rest) by {
        assert ([c] + rest)[1..] == rest;
      }
      assert CapOctets(c) == data[..n];
      Prefixes(data, n, m);
    } else {
      assert data[..0] == [] && data[0..] == data;
    }
  }

  lemma Prefixes(data: seq<byte>, n: nat, m: nat)
    requires n + m <= |data|
    ensures data[..n] + data[n..][..m] == data[..n + m] && data[n..][m..] == data[n + m..]
  {
  }

  /** The codec entry the parser leaves: the last media codec capability with at least two octets of data, or what
      was there before. */
  function CodecOf(caps: seq<Cap>, before: Cap): Cap {
    if caps == [] then before
    else
      var c := caps[|caps| - 1];
      if c.category == MEDIA_CODEC && |c.data| >= 2 then c else CodecOf(caps[..|caps| - 1], before)
  }

  /** A capability on the wire: category, length of the data, data. */
  lemma CapLayout(c: Cap)
    requires |c.data| < 256
    ensures CapOctets(c)[0] == c.category && CapOctets(c)[1] == |c.data| && CapOctets(c)[2..] == c.data
  {
  }

  /** The codec entry, by position: entry k if it is a codec (category 7) with at least two octets and no later one is;
      what was there before if there is no such entry. */
  lemma {:induction false} CodecIs(caps: seq<Cap>, before: Cap, k: int)
    requires -1 <= k < |caps|
    requires k >= 0 ==> caps[k].category == 7 && |caps[k].data| >= 2
    requires forall j :: k < j < |caps| ==> caps[j].category != 7 || |caps[j].data| < 2
    ensures CodecOf(caps, before) == if k < 0 then before else caps[k]
    decreases |caps|
  {
    if |caps| > k + 1 {
      CodecIs(caps[..|caps| - 1], before, k);
    }
  }

  method CapsToList(data: seq<byte>, before: Cap) returns (caps: Caps, codec: Cap)
    ensures caps == Parsed(data) && codec == CodecOf(caps, before)
  {
    hide Parsed, CodecOf;
    caps, codec := [], before;
    var processed := 0;
    ParsedEnds(data, before);
    while processed + 2 < |data|
      invariant 0 <= processed <= |data|
      invariant Parsed(data) == caps + Parsed(data[processed..])
      invariant codec == CodecOf(caps, before)
      decreases |data| - processed
    {
      var category, length := data[processed], data[processed + 1];
      ParsedStep(caps, data, processed);
      if processed + 2 + length > |data| {
        return;
      }
      var cap := Cap(category, data[processed + 2..processed + 2 + length]);
      CodecSnoc(caps, cap, before);
      caps := caps + [cap];
      processed := processed + 2 + length;
      if category == MEDIA_CODEC && length >= 2 {
        codec := cap;
      }
    }
    ParsedStep(caps, data, processed);
  }

  lemma ParsedEnds(data: seq<byte>, before: Cap)
    ensures Parsed(data) == [] + Parsed(data[0..]) && CodecOf([], before) == before
  {
    hide Parsed;
    assert data[0..] == data;
  }

  lemma ParsedStep(caps: Caps, data: seq<byte>, p: nat)
    requires p <= |data|
    ensures if p + 2 < |data| && p + 2 + data[p + 1] <= |data| then
              var n: nat := data[p + 1];
              caps + Parsed(data[p..]) == caps + [Cap(data[p], data[p + 2..p + 2 + n])] + Parsed(data[p + 2 + n..])
            else caps + Parsed(data[p..]) == caps
  {
    var left := data[p..];
    if p + 2 < |data| && p + 2 + data[p + 1] <= |data| {
      var n: nat := data[p + 1];
      FirstAt(data, p);
      assert left[2 + n..] == data[p + 2 + n..];
      hide First;
      Regroup(caps, First(left), Parsed(left[2 + n..]));
    }
  }

  lemma FirstAt(data: seq<byte>, p: nat)
    requires p <= |data| && Fits(data[p..])
    ensures var n: nat := data[p + 1];
            First(data[p..]) == Cap(data[p], data[p + 2..p + 2 + n])
  {
    var n: nat := data[p + 1];
    assert data[p..][2..2 + n] == data[p + 2..p + 2 + n];
  }

  lemma Regroup(a: seq<Cap>, c: Cap, b: seq<Cap>)
    ensures a + ([c] + b) == a + [c] + b
  {
  }

  lemma CodecSnoc(caps: seq<Cap>, c: Cap, before: Cap)
    ensures CodecOf(caps + [c], before)
         == if c.category == MEDIA_CODEC && |c.data| >= 2 then c else CodecOf(caps, before)
  {
    assert (caps + [c])[..|caps|] == caps;
  }

  /** Parsing a serialised list gives it back, except that a last capability without data is lost. */
  lemma {:induction false} ParseInverts(caps: Caps)
    ensures Parsed(Serialised(caps)) == if caps != [] && caps[|caps| - 1].data == [] then caps[..|caps| - 1] else caps
  {
    hide Parsed;
    if caps == [] {
      ParsedNone();
    } else {
      var c, rest := caps[0], caps[1..];
      assert c in caps && caps == [c] + rest;
      ParseInverts(rest);
      ParsedOf(c, Serialised(rest));
      ParsedNone();
      if rest == [] {
        assert caps[..0] == [];
      } else {
        assert rest[0] in rest;
        assert caps[..|caps| - 1] == [c] + rest[..|rest| - 1];
      }
    }
  }

  lemma ParsedNone()
    ensures Parsed([]) == []
  {
  }

  lemma ParsedOf(c: Cap, t: seq<byte>)
    requires |c.data| < 256
    ensures Parsed(CapOctets(c) + t) == if c.data == [] && t == [] then [] else [c] + Parsed(t)
  {
    hide First, Fits;
    FirstOf(c, t);
  }

  lemma FirstOf(c: Cap, t: seq<byte>)
    requires |c.data| < 256
    ensures var s := CapOctets(c) + t;
            && (Fits(s) <==> c.data != [] || t != [])
            && (Fits(s) ==> First(s) == c && s[2 + |c.data|..] == t)
  {
    var s := CapOctets(c) + t;
    assert s[1] == |c.data| && s[2..2 + |c.data|] == c.data && s[2 + |c.data|..] == t;
  }
}

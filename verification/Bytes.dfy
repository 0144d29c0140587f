/** Octets and the network byte order used by every wire format of the stack. */
module Bytes {

  type byte = x: int | 0 <= x < 256

  /** 256^n, the number of values n octets can hold. */
  function Pow256(n: nat): (p: nat)
    ensures p > 0
  {
    if n == 0 then 1 else 256 * Pow256(n - 1)
  }

  /** The low `w` octets of `v`, most significant first (a cast to a w-octet integer, then htons and friends). */
  function BE(w: nat, v: nat): (s: seq<byte>)
    ensures |s| == w
  {
    if w == 0 then [] else BE(w - 1, v / 256) + [v % 256]
  }

  function FromBE(s: seq<byte>): nat {
    if s == [] then 0 else 256 * FromBE(s[..|s| - 1]) + s[|s| - 1]
  }

  /** Reading back what was written gives the value modulo the field's range. */
  lemma {:induction false} FromBEofBE(w: nat, v: nat)
    ensures FromBE(BE(w, v)) == v % Pow256(w)
  {
    if w > 0 {
      var s := BE(w, v);
      assert s[..w - 1] == BE(w - 1, v / 256);
      FromBEofBE(w - 1, v / 256);
      ModSplit(v, Pow256(w - 1));
    }
  }

  lemma BERoundTrip(w: nat, v: nat)
    requires v < Pow256(w)
    ensures FromBE(BE(w, v)) == v
  {
    FromBEofBE(w, v);
    ModUnique(v, Pow256(w), 0, v);
  }

  /** What a length field of `w` octets can say about a length. */
  lemma FieldValue(w: nat, v: nat)
    ensures FromBE(BE(w, v)) <= v && FromBE(BE(w, v)) < Pow256(w)
    ensures v < Pow256(w) ==> FromBE(BE(w, v)) == v
  {
    FromBEofBE(w, v);
    FromBEBound(BE(w, v));
    ModAtMost(v, Pow256(w));
    if v < Pow256(w) {
      BERoundTrip(w, v);
    }
  }

  lemma ModSplit(v: nat, p: nat)
    requires p > 0
    ensures v % (256 * p) == 256 * ((v / 256) % p) + v % 256
  {
    var q, r := v / 256, v % 256;
    var k, m := q / p, q % p;
    assert v == 256 * q + r && q == p * k + m;
    assert v == (256 * p) * k + (256 * m + r) by {
      assert 256 * (p * k + m) == (256 * p) * k + 256 * m;
    }
    assert 0 <= 256 * m + r < 256 * p;
    ModUnique(v, 256 * p, k, 256 * m + r);
  }

  lemma ModUnique(v: int, d: int, k: int, r: int)
    requires d > 0 && v == d * k + r && 0 <= r < d
    ensures v % d == r && v / d == k
  {
    var q := v / d;
    DivMod(v, d);
    assert d * (k - q) == v % d - r;
    if k > q {
      MulAtLeast(d, k - q);
    } else if k < q {
      MulAtLeast(d, q - k);
    }
  }

  lemma DivMod(v: int, d: int)
    requires d > 0
    ensures v == d * (v / d) + v % d && 0 <= v % d < d
  {
  }

  lemma ModAtMost(v: nat, d: nat)
    requires d > 0
    ensures v % d <= v
  {
    if v < d {
      ModUnique(v, d, 0, v);
    }
  }

  lemma MulAtLeast(d: int, n: int)
    requires d > 0 && n > 0
    ensures d * n >= d
  {
    assert d * n == d * (n - 1) + d;
  }

  lemma {:induction false} FromBEBound(s: seq<byte>)
    ensures FromBE(s) < Pow256(|s|)
  {
    if s != [] {
      FromBEBound(s[..|s| - 1]);
    }
  }

  /** Writing what was read restores the octets. */
  lemma {:induction false} BEofFromBE(s: seq<byte>)
    ensures BE(|s|, FromBE(s)) == s
  {
    if s != [] {
      var v, pre := FromBE(s), s[..|s| - 1];
      assert v / 256 == FromBE(pre) && v % 256 == s[|s| - 1];
      BEofFromBE(pre);
      assert pre + [s[|s| - 1]] == s;
    }
  }

  lemma FromBEInjective(a: seq<byte>, b: seq<byte>)
    requires |a| == |b| && FromBE(a) == FromBE(b)
    ensures a == b
  {
    BEofFromBE(a);
    BEofFromBE(b);
  }

  lemma FromBEOne(x: byte)
    ensures FromBE([x]) == x
  {
    assert [x][..0] == [];
  }

  lemma {:induction false} FromBEConcat(a: seq<byte>, b: seq<byte>)
    ensures FromBE(a + b) == FromBE(a) * Pow256(|b|) + FromBE(b)
  {
    if b == [] {
      assert a + b == a;
    } else {
      var b', x := b[..|b| - 1], b[|b| - 1];
      assert (a + b)[..|a + b| - 1] == a + b';
      FromBEConcat(a, b');
      assert 256 * (FromBE(a) * Pow256(|b'|)) == FromBE(a) * Pow256(|b|);
    }
  }

  lemma Pow256Values()
    ensures Pow256(1) == 0x100 && Pow256(2) == 0x1_0000 && Pow256(4) == 0x1_0000_0000
  {
    assert Pow256(3) == 256 * Pow256(2);
  }
}

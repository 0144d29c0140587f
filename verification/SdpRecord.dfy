/** Service records: the attribute list and the UUID search pattern, both kept sorted. */
module SdpRecord {
  import opened Bytes
  import opened SdpElement
  import opened SdpBuf
  import opened SdpList
  import SdpUuid

  function AttrKey(a: Attr): int { a.id }

  function OctetsKey(s: seq<byte>): int { FromBE(s) }

  // ---- memcmp on full UUIDs ----

  /** Sign of memcmp. */
  function Memcmp(a: seq<byte>, b: seq<byte>): int
    requires |a| == |b|
  {
    if a == [] then 0
    else if a[0] != b[0] then (if a[0] < b[0] then -1 else 1)
    else Memcmp(a[1..], b[1..])
  }

  /** memcmp orders octet strings of one length as the numbers they spell. */
  lemma {:induction false} MemcmpIsNumeric(a: seq<byte>, b: seq<byte>)
    requires |a| == |b|
    ensures Memcmp(a, b) == if FromBE(a) < FromBE(b) then -1 else if FromBE(a) > FromBE(b) then 1 else 0
  {
    if a != [] {
      var p := Pow256(|a| - 1);
      HeadTail(a);
      HeadTail(b);
      MemcmpIsNumeric(a[1..], b[1..]);
      if a[0] < b[0] {
        HeadDecides(a[0], b[0], p, FromBE(a[1..]), FromBE(b[1..]));
      } else if a[0] > b[0] {
        HeadDecides(b[0], a[0], p, FromBE(b[1..]), FromBE(a[1..]));
      }
    }
  }

  lemma HeadTail(a: seq<byte>)
    requires a != []
    ensures FromBE(a) == a[0] * Pow256(|a| - 1) + FromBE(a[1..]) && FromBE(a[1..]) < Pow256(|a| - 1)
  {
    hide FromBE, Pow256;
    assert a == [a[0]] + a[1..];
    FromBEConcat([a[0]], a[1..]);
    FromBEOne(a[0]);
    FromBEBound(a[1..]);
  }

  lemma HeadDecides(x: nat, y: nat, p: nat, r: nat, s: nat)
    requires x < y && r < p
    ensures x * p + r < y * p + s
  {
    MulAtLeast(p, y - x);
    assert p * (y - x) == y * p - x * p;
  }

  // ---- attribute list ----

  /** `attrs` is the sorted listing of the finite map `m`. */
  ghost predicate Represents(attrs: seq<Attr>, m: map<nat, Element>) {
    Increasing(attrs, AttrKey) && forall a: Attr :: a in attrs <==> a.id in m && m[a.id] == a.value
  }

  function Removed(attrs: seq<Attr>, id: nat): seq<Attr> {
    var p := Position(attrs, id, AttrKey);
    if p < |attrs| then attrs[..p] + attrs[p + 1..] else attrs
  }

  function Replaced(attrs: seq<Attr>, id: nat, v: Element): seq<Attr> {
    Inserted(Removed(attrs, id), Attr(id, v), AttrKey)
  }

  datatype Op = Add(id: nat, v: Element) | Replace(id: nat, v: Element) | Remove(id: nat)

  /** One operation on the list; adding an id that is there already is refused. */
  function Apply(attrs: seq<Attr>, op: Op): seq<Attr> {
    match op
    case Add(id, v) => if Position(attrs, id, AttrKey) < |attrs| then attrs else Inserted(attrs, Attr(id, v), AttrKey)
    case Replace(id, v) => Replaced(attrs, id, v)
    case Remove(id) => Removed(attrs, id)
  }

  /** The same operation on the map it stands for. */
  ghost function ApplyMap(m: map<nat, Element>, op: Op): map<nat, Element> {
    match op
    case Add(id, v) => if id in m then m else m[id := v]
    case Replace(id, v) => m[id := v]
    case Remove(id) => m - {id}
  }

  /** sdp_data_get finds an id exactly when the map has it, and finds the map's value. */
  lemma GetRepresents(attrs: seq<Attr>, m: map<nat, Element>, id: nat)
    requires Represents(attrs, m)
    ensures var p := Position(attrs, id, AttrKey);
            if id in m then p < |attrs| && attrs[p] == Attr(id, m[id]) else p == |attrs|
  {
    var p := Position(attrs, id, AttrKey);
    assert p < |attrs| ==> attrs[p] in attrs;
    assert id in m ==> Attr(id, m[id]) in attrs;
  }

  lemma RemovedIncreasing(attrs: seq<Attr>, id: nat)
    requires Increasing(attrs, AttrKey)
    ensures Increasing(Removed(attrs, id), AttrKey)
  {
    var p, r := Position(attrs, id, AttrKey), Removed(attrs, id);
    if p < |attrs| {
      forall i, j | 0 <= i < j < |r|
        ensures AttrKey(r[i]) < AttrKey(r[j])
      {
        assert r[i] == attrs[if i < p then i else i + 1] && r[j] == attrs[if j < p then j else j + 1];
      }
    }
  }

  lemma RemovedMember(attrs: seq<Attr>, id: nat, a: Attr)
    requires Increasing(attrs, AttrKey)
    ensures a in Removed(attrs, id) <==> a in attrs && a.id != id
  {
    var p, r := Position(attrs, id, AttrKey), Removed(attrs, id);
    if p < |attrs| {
      assert attrs == attrs[..p] + [attrs[p]] + attrs[p + 1..];
      OtherIds(attrs, p, a);
    } else if a in attrs {
      var i :| 0 <= i < |attrs| && attrs[i] == a;
      assert AttrKey(attrs[i]) != id;
    }
  }

  /** In an increasing list no other entry has the id of entry p. */
  lemma OtherIds(attrs: seq<Attr>, p: nat, a: Attr)
    requires Increasing(attrs, AttrKey) && p < |attrs|
    ensures a in attrs[..p] || a in attrs[p + 1..] ==> a.id != attrs[p].id
  {
    if a in attrs[..p] {
      var i :| 0 <= i < p && attrs[..p][i] == a;
      assert AttrKey(attrs[i]) < AttrKey(attrs[p]);
    } else if a in attrs[p + 1..] {
      var i :| 0 <= i < |attrs| - p - 1 && attrs[p + 1..][i] == a;
      assert AttrKey(attrs[p]) < AttrKey(attrs[p + 1 + i]);
    }
  }

  lemma RemoveRepresents(attrs: seq<Attr>, m: map<nat, Element>, id: nat)
    requires Represents(attrs, m)
    ensures Represents(Removed(attrs, id), m - {id})
  {
    RemovedIncreasing(attrs, id);
    forall a: Attr
      ensures a in Removed(attrs, id) <==> a in attrs && a.id != id
    {
      RemovedMember(attrs, id, a);
    }
  }

  lemma InsertRepresents(attrs: seq<Attr>, m: map<nat, Element>, a: Attr)
    requires Represents(attrs, m) && a.id !in m
    ensures Represents(Inserted(attrs, a, AttrKey), m[a.id := a.value])
  {
    InsertedMembers(attrs, a, AttrKey);
    InsertedIncreasing(attrs, a, AttrKey);
  }

  lemma ApplyRepresents(attrs: seq<Attr>, m: map<nat, Element>, op: Op)
    requires Represents(attrs, m)
    ensures Represents(Apply(attrs, op), ApplyMap(m, op))
  {
    GetRepresents(attrs, m, op.id);
    match op {
      case Add(id, v) =>
        if id !in m {
          InsertRepresents(attrs, m, Attr(id, v));
        }
      case Replace(id, v) =>
        RemoveRepresents(attrs, m, id);
        InsertRepresents(Removed(attrs, id), m - {id}, Attr(id, v));
        assert (m - {id})[id := v] == m[id := v];
      case Remove(id) =>
        RemoveRepresents(attrs, m, id);
    }
  }

  function ApplyAll(attrs: seq<Attr>, ops: seq<Op>): seq<Attr>
    decreases |ops|
  {
    if ops == [] then attrs else ApplyAll(Apply(attrs, ops[0]), ops[1..])
  }

  ghost function ApplyAllMap(m: map<nat, Element>, ops: seq<Op>): map<nat, Element>
    decreases |ops|
  {
    if ops == [] then m else ApplyAllMap(ApplyMap(m, ops[0]), ops[1..])
  }

  /** Any run of add, replace and remove leaves a strictly increasing list that lists the finite map
      on which the same run was made. */
  lemma {:induction false} RunRepresents(attrs: seq<Attr>, m: map<nat, Element>, ops: seq<Op>)
    requires Represents(attrs, m)
    ensures Represents(ApplyAll(attrs, ops), ApplyAllMap(m, ops))
    decreases |ops|
  {
    if ops != [] {
      ApplyRepresents(attrs, m, ops[0]);
      RunRepresents(Apply(attrs, ops[0]), ApplyMap(m, ops[0]), ops[1..]);
    }
  }

  /** Replacing an id above all present ones appends. */
  lemma {:induction false} ReplacedAppends(attrs: seq<Attr>, id: nat, v: Element)
    requires forall i :: 0 <= i < |attrs| ==> attrs[i].id < id
    ensures Replaced(attrs, id, v) == attrs + [Attr(id, v)]
  {
    InsertedAppends(attrs, Attr(id, v));
  }

  lemma {:induction false} InsertedAppends(attrs: seq<Attr>, d: Attr)
    requires forall i :: 0 <= i < |attrs| ==> attrs[i].id < d.id
    ensures Inserted(attrs, d, AttrKey) == attrs + [d]
  {
    if attrs != [] {
      InsertedAppends(attrs[1..], d);
    }
  }

  // ---- search pattern ----

  /** sdp_pattern_add_uuid. */
  function PatternAdded(pattern: seq<seq<byte>>, u: Uuid): seq<seq<byte>> {
    var w := SdpUuid.Widen(u);
    if Position(pattern, OctetsKey(w), OctetsKey) < |pattern| then pattern else Inserted(pattern, w, OctetsKey)
  }

  function PatternAll(pattern: seq<seq<byte>>, us: seq<Uuid>): seq<seq<byte>>
    decreases |us|
  {
    if us == [] then pattern else PatternAll(PatternAdded(pattern, us[0]), us[1..])
  }

  lemma {:induction false} PatternAllConcat(pattern: seq<seq<byte>>, a: seq<Uuid>, b: seq<Uuid>)
    ensures PatternAll(pattern, a + b) == PatternAll(PatternAll(pattern, a), b)
    decreases |a|
  {
    if a == [] {
      assert a + b == b;
    } else {
      assert (a + b)[1..] == a[1..] + b;
      PatternAllConcat(PatternAdded(pattern, a[0]), a[1..], b);
    }
  }

  ghost predicate Pattern(pattern: seq<seq<byte>>) {
    Increasing(pattern, OctetsKey) && forall s :: s in pattern ==> |s| == 16
  }

  lemma PatternAddedSet(pattern: seq<seq<byte>>, u: Uuid)
    requires Pattern(pattern) && TypedUuid(u)
    ensures Pattern(PatternAdded(pattern, u))
    ensures forall s :: s in PatternAdded(pattern, u) <==> s in pattern || s == SdpUuid.Widen(u)
  {
    var w := SdpUuid.Widen(u);
    var p := Position(pattern, OctetsKey(w), OctetsKey);
    if p < |pattern| {
      assert pattern[p] in pattern;
      FromBEInjective(pattern[p], w);
    } else {
      InsertedMembers(pattern, w, OctetsKey);
      InsertedIncreasing(pattern, w, OctetsKey);
    }
  }

  ghost function FullForms(us: seq<Uuid>): set<seq<byte>> {
    set u | u in us :: SdpUuid.Widen(u)
  }

  /** Whatever the order and the spellings, the pattern is strictly sorted by memcmp and holds exactly the full
      forms of the UUIDs added, each once. */
  lemma {:induction false} PatternAllSet(pattern: seq<seq<byte>>, us: seq<Uuid>)
    requires Pattern(pattern) && forall u :: u in us ==> TypedUuid(u)
    ensures Pattern(PatternAll(pattern, us))
    ensures forall s :: s in PatternAll(pattern, us) <==> s in pattern || s in FullForms(us)
    decreases |us|
  {
    if us != [] {
      PatternAddedSet(pattern, us[0]);
      PatternAllSet(PatternAdded(pattern, us[0]), us[1..]);
      FullFormsStep(us);
    }
  }

  lemma FullFormsStep(us: seq<Uuid>)
    requires us != []
    ensures FullForms(us) == {SdpUuid.Widen(us[0])} + FullForms(us[1..])
  {
    assert us == [us[0]] + us[1..];
  }

  // ---- the record object ----

  class Record {
    var attrs: seq<Attr>
    var pattern: seq<seq<byte>>

    constructor ()
      ensures attrs == [] && pattern == []
    {
      attrs, pattern := [], [];
    }

    method AttrAdd(id: nat, v: Element) returns (ok: bool)
      modifies this`attrs
      ensures attrs == Apply(old(attrs), Add(id, v))
      ensures ok <==> Position(old(attrs), id, AttrKey) == |old(attrs)|
    {
      var p := Find(attrs, id, AttrKey);
      ok := p == |attrs|;
      if ok {
        attrs := InsertSorted(attrs, Attr(id, v), AttrKey);
      }
    }

    method AttrRemove(id: nat)
      modifies this`attrs
      ensures attrs == Apply(old(attrs), Remove(id))
    {
      var p := Find(attrs, id, AttrKey);
      if p < |attrs| {
        attrs := attrs[..p] + attrs[p + 1..];
      }
    }

    method AttrReplace(id: nat, v: Element)
      modifies this`attrs
      ensures attrs == Apply(old(attrs), Replace(id, v))
    {
      AttrRemove(id);
      attrs := InsertSorted(attrs, Attr(id, v), AttrKey);
    }

    method PatternAddUuid(u: Uuid)
      modifies this`pattern
      ensures pattern == PatternAdded(old(pattern), u)
    {
      var w := SdpUuid.Widen(u);
      var p := Find(pattern, OctetsKey(w), OctetsKey);
      if p == |pattern| {
        pattern := InsertSorted(pattern, w, OctetsKey);
      }
    }
  }
}

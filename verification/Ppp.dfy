/** PPP frames out of a byte stream that arrives in arbitrary chunks (octet-stuffed framing, section 4 of RFC 1662). */
module Ppp {
  import opened Bytes
  import opened SlotTable

  const FLAG: byte := 0x7e
  const ESC: byte := 0x7d

  /** Exclusive or with 0x20. */
  function Flip(x: byte): byte {
    if (x / 0x20) % 2 == 1 then x - 0x20 else x + 0x20
  }

  /** Bit 5 is turned over and no other changes. */
  lemma FlipIs(x: byte)
    ensures Flip(x) / 32 % 2 != x / 32 % 2 && Flip(x) % 32 == x % 32 && Flip(x) / 64 == x / 64
  {
  }

  // ---- unescaping ----

  /** What unslip_frame makes of the octets between two flags. An escape right before the closing flag
      takes that flag as the escaped octet. */
  function Unslip(s: seq<byte>): seq<byte> {
    if s == [] then []
    else if s[0] == ESC then (if |s| == 1 then [Flip(FLAG)] else [Flip(s[1])] + Unslip(s[2..]))
    else [s[0]] + Unslip(s[1..])
  }

  lemma {:induction false} UnslipLength(s: seq<byte>)
    ensures |Unslip(s)| <= |s| && (s != [] ==> Unslip(s) != [])
  {
    if s != [] {
      if s[0] == ESC {
        if |s| > 1 {
          UnslipLength(s[2..]);
        }
      } else {
        UnslipLength(s[1..]);
      }
    }
  }

  /** The unescape loop, into an output array twice the input's length. `ptr` runs on past the `len` octets of the
      frame: the octet after them is the closing flag. */
  method UnslipFrame(ptr: seq<byte>, len: nat) returns (msg: seq<byte>)
    requires len < |ptr| && ptr[len] == FLAG
    ensures msg == Unslip(ptr[..len])
  {
    hide Unslip, Flip, Unslipped;
    var data := new byte[len * 2](_ => 0);
    var i, p := 0, 0;
    ghost var whole := Unslip(ptr[..len]);
    UnslippedEnds(ptr, len, 0);
    assert data[..0] == [];
    while i < len
      invariant 0 <= i <= len + 1 && 0 <= p <= i && p <= len
      invariant whole == data[..p] + Unslipped(ptr, i, len)
    {
      ghost var before := data[..p];
      UnslippedStep(ptr, i, len);
      var x;
      if ptr[i] == ESC {
        x := Flip(ptr[i + 1]);
        i := i + 1;
      } else {
        x := ptr[i];
      }
      i := i + 1;
      data[p] := x;
      p := p + 1;
      assert data[..p] == before + [x];
      Snoc(before, x, Unslipped(ptr, i, len));
    }
    msg := data[..p];
    UnslippedEnds(ptr, len, i);
    assert msg + [] == msg;
  }

  /** What is still to come with the input cursor at i. */
  ghost function Unslipped(ptr: seq<byte>, i: nat, len: nat): seq<byte>
    requires len <= |ptr|
  {
    if i < len then Unslip(ptr[i..len]) else []
  }

  lemma UnslippedEnds(ptr: seq<byte>, len: nat, i: nat)
    requires len <= |ptr|
    ensures i >= len ==> Unslipped(ptr, i, len) == []
    ensures [] + Unslipped(ptr, 0, len) == Unslip(ptr[..len])
  {
    assert ptr[0..len] == ptr[..len] && [] + Unslip(ptr[..len]) == Unslip(ptr[..len]);
    assert len == 0 ==> ptr[..len] == [];
  }

  lemma UnslippedStep(ptr: seq<byte>, i: nat, len: nat)
    requires i < len < |ptr| && ptr[len] == FLAG
    ensures Unslipped(ptr, i, len)
         == if ptr[i] == ESC then [Flip(ptr[i + 1])] + Unslipped(ptr, i + 2, len)
            else [ptr[i]] + Unslipped(ptr, i + 1, len)
  {
    hide Flip;
    var s := ptr[i..len];
    assert s[1..] == ptr[i + 1..len];
    assert Unslip([]) == [];
    if |s| > 1 {
      assert s[2..] == ptr[i + 2..len];
    } else {
      assert [Flip(FLAG)] + [] == [Flip(FLAG)];
    }
  }

  lemma Snoc(a: seq<byte>, x: byte, b: seq<byte>)
    ensures a + ([x] + b) == a + [x] + b
  {
  }

  // ---- framing ----

  /** memchr for the flag: its first position from `from` on, or the length. */
  function FlagFrom(b: seq<byte>, from: nat): (p: nat)
    requires from <= |b|
    ensures from <= p <= |b|
    ensures p < |b| ==> b[p] == FLAG
    decreases |b| - from
  {
    if from == |b| || b[from] == FLAG then from else FlagFrom(b, from + 1)
  }

  lemma {:induction false} NoFlagBefore(b: seq<byte>, from: nat)
    requires from <= |b|
    ensures FLAG !in b[from..FlagFrom(b, from)]
    decreases |b| - from
  {
    var p := FlagFrom(b, from);
    if p > from {
      NoFlagBefore(b, from + 1);
      assert b[from..p] == [b[from]] + b[from + 1..p];
    }
  }

  /** The first flag is where a flag follows a stretch without one. */
  lemma {:induction false} FlagIs(b: seq<byte>, from: nat, p: nat)
    requires from <= p <= |b| && FLAG !in b[from..p] && (p < |b| ==> b[p] == FLAG)
    ensures FlagFrom(b, from) == p
    decreases p - from
  {
    if from < p {
      assert b[from..p] == [b[from]] + b[from + 1..p];
      FlagIs(b, from + 1, p);
    }
  }

  method MemchrFlag(b: seq<byte>, from: nat) returns (p: nat)
    requires from <= |b|
    ensures p == FlagFrom(b, from)
  {
    p := from;
    while p < |b| && b[p] != FLAG
      invariant from <= p <= |b| && FlagFrom(b, from) == FlagFrom(b, p)
    {
      p := p + 1;
    }
  }

  /** The frames in a buffer and the octets kept for the next chunk. */
  datatype Deframed = Deframed(frames: seq<seq<byte>>, rest: seq<byte>)

  /** The framing loop of ppp_dump. A closing flag also opens the next frame; empty frames are dropped. */
  function Deframe(b: seq<byte>): Deframed
    decreases |b|
  {
    var p := FlagFrom(b, 0);
    if p == |b| then Deframed([], b) else DeframeAt(b[p..])
  }

  function DeframeAt(b: seq<byte>): Deframed
    requires |b| > 0 && b[0] == FLAG
    decreases |b|, 0
  {
    var q := FlagFrom(b, 1);
    if q == |b| then Deframed([], b)
    else
      var d := DeframeAt(b[q..]);
      Deframed(FrameBetween(b, 0, q) + d.frames, d.rest)
  }

  /** The frame between the flags at p and q, if it is not empty. */
  function FrameBetween(b: seq<byte>, p: nat, q: nat): seq<seq<byte>>
    requires p < q <= |b|
  {
    if q > p + 1 then [Unslip(b[p + 1..q])] else []
  }

  lemma AtFrame(b: seq<byte>, q: nat)
    requires |b| > 0 && b[0] == FLAG && q == FlagFrom(b, 1) < |b|
    ensures DeframeAt(b) == Deframed(FrameBetween(b, 0, q) + DeframeAt(b[q..]).frames, DeframeAt(b[q..]).rest)
  {
    hide FlagFrom, FrameBetween;
  }

  lemma AtEnd(b: seq<byte>)
    requires |b| > 0 && b[0] == FLAG && FlagFrom(b, 1) == |b|
    ensures DeframeAt(b) == Deframed([], b)
  {
    hide FlagFrom;
  }

  lemma FromFlag(b: seq<byte>)
    requires |b| > 0 && b[0] == FLAG
    ensures Deframe(b) == DeframeAt(b)
  {
    assert b[0..] == b;
  }

  /** A leading stretch without flags is skipped once a flag is there. */
  lemma SkipToFlag(g: seq<byte>, b: seq<byte>)
    requires FLAG !in g && |b| > 0 && b[0] == FLAG
    ensures Deframe(g + b) == DeframeAt(b)
  {
    assert (g + b)[0..|g|] == g && (g + b)[|g|..] == b;
    FlagIs(g + b, 0, |g|);
  }

  lemma {:induction false} DeframeAtConcat(a: seq<byte>, c: seq<byte>)
    requires |a| > 0 && a[0] == FLAG
    ensures DeframeAt(a).rest != [] && DeframeAt(a).rest[0] == FLAG
    ensures var e := DeframeAt(DeframeAt(a).rest + c);
            DeframeAt(a + c) == Deframed(DeframeAt(a).frames + e.frames, e.rest)
    decreases |a|
  {
    hide DeframeAt, FrameBetween, FlagFrom;
    var q := FlagFrom(a, 1);
    if q < |a| {
      var d := DeframeAt(a[q..]);
      FlagFromPrefix(a, c, 1);
      assert (a + c)[q..] == a[q..] + c;
      AtFrame(a, q);
      AtFrame(a + c, q);
      SameFrame(a, c, 0, q);
      DeframeAtConcat(a[q..], c);
      Assoc(FrameBetween(a, 0, q), d.frames, DeframeAt(d.rest + c).frames);
    } else {
      AtEnd(a);
      Assoc([], [], DeframeAt(a + c).frames);
    }
  }

  lemma SameFrame(a: seq<byte>, c: seq<byte>, p: nat, q: nat)
    requires p < q <= |a|
    ensures FrameBetween(a + c, p, q) == FrameBetween(a, p, q)
  {
    hide Unslip;
    assert (a + c)[p + 1..q] == a[p + 1..q];
  }

  lemma Assoc<T>(a: seq<T>, b: seq<T>, c: seq<T>)
    ensures a + (b + c) == a + b + c && [] + c == c
  {
  }

  lemma {:induction false} FlagFromPrefix(a: seq<byte>, c: seq<byte>, from: nat)
    requires from <= |a| && FlagFrom(a, from) < |a|
    ensures FlagFrom(a + c, from) == FlagFrom(a, from)
  {
    var p := FlagFrom(a, from);
    NoFlagBefore(a, from);
    assert (a + c)[from..p] == a[from..p];
    FlagIs(a + c, from, p);
  }

  /** Deframing what was kept, followed by the next chunk, continues where deframing stopped. */
  lemma DeframeConcat(a: seq<byte>, c: seq<byte>)
    ensures var d := Deframe(a); var e := Deframe(d.rest + c);
            Deframe(a + c) == Deframed(d.frames + e.frames, e.rest)
  {
    hide DeframeAt, FlagFrom;
    var p := FlagFrom(a, 0);
    if p < |a| {
      var g, b := a[0..p], a[p..];
      NoFlagBefore(a, 0);
      assert a == g + b && a + c == g + (b + c);
      SkipToFlag(g, b);
      SkipToFlag(g, b + c);
      DeframeAtConcat(b, c);
      FromFlag(DeframeAt(b).rest + c);
    } else {
      Assoc([], [], Deframe(a + c).frames);
    }
  }

  /** What the framing loop comes to once it has emitted `frames` and has `left` before it. */
  ghost function Continued(frames: seq<seq<byte>>, left: seq<byte>): Deframed {
    Deframed(frames + Deframe(left).frames, Deframe(left).rest)
  }

  /** The framing loop: moves the start of the buffer from flag to flag. */
  method FrameLoop(b: seq<byte>) returns (frames: seq<seq<byte>>, rest: seq<byte>)
    ensures Deframed(frames, rest) == Deframe(b)
  {
    hide Unslip, FlagFrom, Continued, Deframe, DeframeAt;
    frames, rest := [], b;
    LoopStart(b);
    while |rest| > 0
      invariant Deframe(b) == Continued(frames, rest)
      decreases |rest|
    {
      var ptr := MemchrFlag(rest, 0);
      LoopSkip(frames, rest);
      if ptr == |rest| {
        return;
      }
      rest := rest[ptr..];
      var end := MemchrFlag(rest, 1);
      LoopFrame(frames, rest);
      if end == |rest| {
        return;
      }
      var len := end - 1;
      ghost var at := rest;
      rest := rest[1..];
      assert frames + [] == frames;
      if len > 0 {
        assert rest[..len] == at[1..end];
        var msg := UnslipFrame(rest, len);
        frames := frames + [msg];
        rest := rest[len..];
      }
      assert rest == at[end..];
    }
    LoopDone(frames);
  }

  lemma LoopStart(b: seq<byte>)
    ensures Deframe(b) == Continued([], b)
  {
    hide Deframe;
    Regroup([], [], Deframe(b));
    assert [] + Deframe(b).frames == Deframe(b).frames;
  }

  lemma LoopDone(frames: seq<seq<byte>>)
    ensures Continued(frames, []) == Deframed(frames, [])
  {
    EmptyQuiet();
    Regroup(frames, [], Deframed([], []));
  }

  /** Finding the opening flag. */
  lemma LoopSkip(frames: seq<seq<byte>>, left: seq<byte>)
    ensures var p := FlagFrom(left, 0);
            Continued(frames, left) == if p == |left| then Deframed(frames, left) else Continued(frames, left[p..])
  {
    hide FlagFrom, DeframeAt;
    var p := FlagFrom(left, 0);
    if p < |left| {
      FromFlag(left[p..]);
    } else {
      Regroup(frames, [], Deframe(left));
    }
  }

  /** Finding the closing flag. */
  lemma LoopFrame(frames: seq<seq<byte>>, left: seq<byte>)
    requires |left| > 0 && left[0] == FLAG
    ensures var q := FlagFrom(left, 1);
            Continued(frames, left)
            == if q == |left| then Deframed(frames, left) else Continued(frames + FrameBetween(left, 0, q), left[q..])
  {
    hide FlagFrom, DeframeAt, Deframe, FrameBetween;
    var q := FlagFrom(left, 1);
    FromFlag(left);
    if q < |left| {
      AtFrame(left, q);
      FromFlag(left[q..]);
      Regroup(frames, FrameBetween(left, 0, q), DeframeAt(left[q..]));
    } else {
      AtEnd(left);
      Regroup(frames, [], DeframeAt(left));
    }
  }

  lemma Regroup(a: seq<seq<byte>>, b: seq<seq<byte>>, d: Deframed)
    ensures Deframed(a + (b + d.frames), d.rest) == Deframed(a + b + d.frames, d.rest)
    ensures Deframed(a + [], d.rest) == Deframed(a, d.rest)
  {
    assert a + (b + d.frames) == a + b + d.frames && a + [] == a;
  }

  // ---- recognising PPP in raw traffic ----

  const MAGIC1: seq<byte> := [0x7e, 0xff, 0x03, 0xc0, 0x21]
  const MAGIC2: seq<byte> := [0x7e, 0xff, 0x7d, 0x23, 0xc0, 0x21]
  const MAGIC3: seq<byte> := [0x7e, 0x7d, 0xdf, 0x7d, 0x23, 0xc0, 0x21]

  /** First position from `i` on where `m` occurs and is followed by at least one more octet, or -1. */
  function Search(c: seq<byte>, m: seq<byte>, i: nat): (p: int)
    ensures p < 0 || (p + |m| < |c| && c[p..p + |m|] == m)
    decreases |c| - i
  {
    if i + |m| >= |c| then -1 else if c[i..i + |m|] == m then i else Search(c, m, i + 1)
  }

  /** check_for_ppp_traffic: the first form anywhere, else the second, else the third. */
  function Detect(c: seq<byte>): (p: int)
    ensures p < 0 || (p + 5 < |c| && c[p] == FLAG && c[p + 1] != FLAG)
  {
    var p1, p2, p3 := Search(c, MAGIC1, 0), Search(c, MAGIC2, 0), Search(c, MAGIC3, 0);
    assert p1 >= 0 ==> c[p1] == c[p1..p1 + 5][0] && c[p1 + 1] == c[p1..p1 + 5][1];
    assert p2 >= 0 ==> c[p2] == c[p2..p2 + 6][0] && c[p2 + 1] == c[p2..p2 + 6][1];
    assert p3 >= 0 ==> c[p3] == c[p3..p3 + 7][0] && c[p3 + 1] == c[p3..p3 + 7][1];
    if p1 >= 0 then p1 else if p2 >= 0 then p2 else p3
  }

  /** The octets occur at p with at least one more behind them. */
  ghost predicate OccursAt(c: seq<byte>, m: seq<byte>, p: int) {
    0 <= p && p + |m| < |c| && c[p..p + |m|] == m
  }

  ghost predicate FirstAt(c: seq<byte>, m: seq<byte>, p: int) {
    OccursAt(c, m, p) && forall q :: 0 <= q < p ==> !OccursAt(c, m, q)
  }

  ghost predicate Never(c: seq<byte>, m: seq<byte>) {
    forall q :: 0 <= q < |c| ==> !OccursAt(c, m, q)
  }

  lemma {:induction false} SearchIs(c: seq<byte>, m: seq<byte>, i: nat)
    requires forall q :: 0 <= q < i ==> !OccursAt(c, m, q)
    ensures if Search(c, m, i) < 0 then Never(c, m) else FirstAt(c, m, Search(c, m, i))
    decreases |c| - i
  {
    if i + |m| < |c| && c[i..i + |m|] != m {
      SearchIs(c, m, i + 1);
    }
  }

  /** What counts as PPP: the opening of a link control frame plain, with its control octet escaped, or with address and
      control octet escaped; an earlier form anywhere in the chunk goes before a later one. */
  lemma DetectIs(c: seq<byte>)
    ensures var m1, m2, m3 := [0x7e, 0xff, 0x03, 0xc0, 0x21], [0x7e, 0xff, 0x7d, 0x23, 0xc0, 0x21],
                              [0x7e, 0x7d, 0xdf, 0x7d, 0x23, 0xc0, 0x21];
            var d := Detect(c);
            && (d < 0 ==> Never(c, m1) && Never(c, m2) && Never(c, m3))
            && (d >= 0 ==> || FirstAt(c, m1, d) || (Never(c, m1) && FirstAt(c, m2, d))
                           || (Never(c, m1) && Never(c, m2) && FirstAt(c, m3, d)))
  {
    hide Search, FirstAt, Never;
    SearchIs(c, MAGIC1, 0);
    SearchIs(c, MAGIC2, 0);
    SearchIs(c, MAGIC3, 0);
  }

  method SearchLoop(c: seq<byte>, m: seq<byte>) returns (p: int)
    requires |m| <= |c|
    ensures p == Search(c, m, 0)
  {
    var i := 0;
    while i < |c| - |m|
      invariant 0 <= i <= |c| - |m| && Search(c, m, 0) == Search(c, m, i)
    {
      if c[i..i + |m|] == m {
        return i;
      }
      i := i + 1;
    }
    p := -1;
  }

  // ---- the dumper ----

  datatype Key = Key(handle: nat, dlci: nat)

  const FRAME_TABLE_SIZE := 20

  /** The global traffic flag, and for every stream the octets kept for its next chunk. */
  datatype State = State(traffic: bool, kept: map<Key, seq<byte>>)

  function Kept(s: State, key: Key): seq<byte> {
    if key in s.kept then s.kept[key] else []
  }

  /** Where deframing of a chunk starts: at once after PPP has been recognised, else where it is recognised in
      this chunk (-1: nowhere). */
  function StartIn(traffic: bool, chunk: seq<byte>): (p: int)
    ensures -1 <= p ==> p <= |chunk|
  {
    if traffic then 0 else Detect(chunk)
  }

  /** One call of ppp_dump, as long as the frame table has a slot for the stream: the new state. */
  function Next(s: State, key: Key, chunk: seq<byte>): State {
    var p := StartIn(s.traffic, chunk);
    if p < 0 then s else State(true, s.kept[key := Deframe(Kept(s, key) + chunk[p..]).rest])
  }

  /** The frames that call hands on. */
  function Emitted(s: State, key: Key, chunk: seq<byte>): seq<seq<byte>> {
    var p := StartIn(s.traffic, chunk);
    if p < 0 then [] else Deframe(Kept(s, key) + chunk[p..]).frames
  }

  class Dumper {
    var traffic: bool
    var slots: seq<Slot<Key, seq<byte>>>
    var out: seq<(Key, seq<byte>)>

    ghost predicate Valid()
      reads this
    {
      |slots| == FRAME_TABLE_SIZE && Distinct(slots)
    }

    ghost function Abstract(): State
      requires Valid()
      reads this
    {
      State(traffic, AsMap(slots))
    }

    constructor ()
      ensures Valid() && Abstract() == State(false, map[]) && out == []
    {
      traffic, out := false, [];
      slots := seq(FRAME_TABLE_SIZE, _ => Free);
    }

    /** check_for_ppp_traffic; shorter data would be searched beyond its end. */
    method CheckForTraffic(data: seq<byte>) returns (pos: int)
      requires |data| >= |MAGIC3|
      modifies this`traffic
      ensures pos == Detect(data) && traffic == (old(traffic) || pos >= 0)
    {
      pos := SearchLoop(data, MAGIC1);
      if pos < 0 {
        pos := SearchLoop(data, MAGIC2);
      }
      if pos < 0 {
        pos := SearchLoop(data, MAGIC3);
      }
      if pos >= 0 {
        traffic := true;
      }
    }

    /** add_frame and the framing loop on the buffer it returns. With the table full the chunk is deframed alone. */
    method Feed(key: Key, data: seq<byte>) returns (frames: seq<seq<byte>>)
      requires Valid()
      modifies this`slots
      ensures Valid()
      ensures var p := Locate(old(slots), key);
              && (p < 0 ==> slots == old(slots) && frames == Deframe(data).frames)
              && (p >= 0 ==> var d := Deframe(old(Kept(Abstract(), key)) + data);
                             AsMap(slots) == old(AsMap(slots))[key := d.rest] && frames == d.frames)
    {
      var pos := Scan(slots, key);
      if pos < 0 {
        var rest;
        frames, rest := FrameLoop(data);
        return;
      }
      KeysFind(slots, key);
      var prior := if slots[pos].Used? then slots[pos].val else [];
      assert prior == Kept(Abstract(), key);
      var rest;
      frames, rest := FrameLoop(prior + data);
      Stored(slots, key, rest);
      slots := slots[pos := Used(key, rest)];
    }

    /** ppp_dump: refines Next and Emitted whenever the stream has or gets a slot; with the table full
        nothing is kept from one chunk to the next. */
    method Dump(key: Key, chunk: seq<byte>)
      requires Valid() && (!traffic ==> |chunk| >= |MAGIC3|)
      modifies this
      ensures Valid()
      ensures Locate(old(slots), key) >= 0 ==>
                && Abstract() == Next(old(Abstract()), key, chunk)
                && out == old(out) + Tagged(key, Emitted(old(Abstract()), key, chunk))
      ensures Locate(old(slots), key) < 0 ==>
                && Abstract() == old(Abstract()).(traffic := StartIn(old(traffic), chunk) >= 0)
                && out == old(out) + Tagged(key, Emitted(State(old(traffic), map[]), key, chunk))
    {
      var pos := 0;
      if !traffic {
        pos := CheckForTraffic(chunk);
        if pos < 0 {
          assert out + [] == out;
          return;
        }
      }
      assert [] + chunk[pos..] == chunk[pos..];
      var frames := Feed(key, chunk[pos..]);
      out := out + Tagged(key, frames);
    }
  }

  /** The table has no slot for a stream if and only if it holds twenty others. */
  lemma NoSlotIff(d: Dumper, key: Key)
    requires d.Valid()
    ensures Locate(d.slots, key) < 0 <==> key !in AsMap(d.slots) && |AsMap(d.slots)| == 20
  {
    KeysFind(d.slots, key);
    FullIff(d.slots);
  }

  function Tagged(key: Key, frames: seq<seq<byte>>): seq<(Key, seq<byte>)> {
    seq(|frames|, i requires 0 <= i < |frames| => (key, frames[i]))
  }

  // ---- whole runs ----

  /** A chunk of the stream with the given key. */
  datatype Event = Event(key: Key, chunk: seq<byte>)

  /** All frames of one stream in a run over any interleaving of streams. */
  function FramesOf(s: State, events: seq<Event>, key: Key): seq<seq<byte>>
    decreases |events|
  {
    if events == [] then []
    else
      var e := events[0];
      (if e.key == key then Emitted(s, e.key, e.chunk) else []) + FramesOf(Next(s, e.key, e.chunk), events[1..], key)
  }

  /** The octets of one stream in a run. */
  function StreamOf(events: seq<Event>, key: Key): seq<byte> {
    if events == [] then []
    else (if events[0].key == key then events[0].chunk else []) + StreamOf(events[1..], key)
  }

  /** Every kept remainder holds no complete frame. */
  ghost predicate Quiet(s: State) {
    forall key :: key in s.kept ==> Deframe(s.kept[key]).frames == []
  }

  /** What deframing keeps deframes to nothing. */
  lemma {:induction false} RestIsQuiet(a: seq<byte>)
    ensures Deframe(Deframe(a).rest) == Deframed([], Deframe(a).rest)
  {
    hide DeframeAt, FlagFrom;
    var p := FlagFrom(a, 0);
    if p < |a| {
      RestAtIsQuiet(a[p..]);
      FromFlag(DeframeAt(a[p..]).rest);
    }
  }

  lemma {:induction false} RestAtIsQuiet(b: seq<byte>)
    requires |b| > 0 && b[0] == FLAG
    ensures var r := DeframeAt(b).rest; |r| > 0 && r[0] == FLAG && DeframeAt(r) == Deframed([], r)
    decreases |b|
  {
    hide DeframeAt, FlagFrom, FrameBetween;
    var q := FlagFrom(b, 1);
    if q < |b| {
      AtFrame(b, q);
      RestAtIsQuiet(b[q..]);
    } else {
      AtEnd(b);
    }
  }

  lemma EmptyQuiet()
    ensures Deframe([]) == Deframed([], [])
  {
  }

  lemma NextQuiet(s: State, key: Key, chunk: seq<byte>)
    requires Quiet(s)
    ensures Quiet(Next(s, key, chunk))
  {
    hide Deframe;
    var p := StartIn(s.traffic, chunk);
    if p >= 0 {
      RestIsQuiet(Kept(s, key) + chunk[p..]);
    }
  }

  /** Chunking independence: once PPP has been recognised, however the streams are cut and interleaved, the frames
      of a stream are those of its octets in one piece. */
  lemma {:induction false} ChunkingIndependence(s: State, events: seq<Event>, key: Key)
    requires s.traffic && Quiet(s)
    ensures FramesOf(s, events, key) == Deframe(Kept(s, key) + StreamOf(events, key)).frames
    decreases |events|
  {
    hide Deframe;
    var k := Kept(s, key);
    if events == [] {
      assert k + [] == k;
      EmptyQuiet();
    } else {
      var e, rest := events[0], events[1..];
      var s', later := Next(s, e.key, e.chunk), StreamOf(rest, key);
      NextQuiet(s, e.key, e.chunk);
      ChunkingIndependence(s', rest, key);
      assert e.chunk[0..] == e.chunk;
      if e.key == key {
        DeframeConcat(k + e.chunk, later);
        assert k + e.chunk + later == k + (e.chunk + later);
      } else {
        assert [] + later == later;
        assert [] + FramesOf(s', rest, key) == FramesOf(s', rest, key);
      }
    }
  }

  /** The frames handed on for one stream. */
  function Of(out: seq<(Key, seq<byte>)>, key: Key): seq<seq<byte>> {
    if out == [] then [] else (if out[0].0 == key then [out[0].1] else []) + Of(out[1..], key)
  }

  lemma {:induction false} OfConcat(a: seq<(Key, seq<byte>)>, b: seq<(Key, seq<byte>)>, key: Key)
    ensures Of(a + b, key) == Of(a, key) + Of(b, key)
  {
    if a == [] {
      assert a + b == b;
    } else {
      assert (a + b)[1..] == a[1..] + b;
      OfConcat(a[1..], b, key);
    }
  }

  lemma {:induction false} OfTagged(k: Key, frames: seq<seq<byte>>, key: Key)
    ensures Of(Tagged(k, frames), key) == if k == key then frames else []
  {
    if frames != [] {
      assert Tagged(k, frames)[1..] == Tagged(k, frames[1..]);
      OfTagged(k, frames[1..], key);
      assert frames == [frames[0]] + frames[1..];
    }
  }

  ghost function KeysOf(events: seq<Event>): set<Key> {
    set e | e in events :: e.key
  }

  /** Drives the dumper through a run. As long as no more streams are in use than the frame table has slots,
      what it hands on for each stream is what the run says. */
  method DumpAll(d: Dumper, events: seq<Event>, ghost keys: set<Key>)
    requires d.Valid() && Keys(d.slots) + KeysOf(events) <= keys && |keys| <= FRAME_TABLE_SIZE
    requires d.traffic || forall i :: 0 <= i < |events| ==> |events[i].chunk| >= |MAGIC3|
    modifies d
    ensures d.Valid()
    ensures forall key :: Of(d.out, key) == Of(old(d.out), key) + FramesOf(old(d.Abstract()), events, key)
    decreases |events|
  {
    hide Emitted, Next, StartIn;
    if events == [] {
      assert forall key :: Of(d.out, key) + [] == Of(d.out, key);
      return;
    }
    var e := events[0];
    assert e in events && KeysOf(events[1..]) <= KeysOf(events);
    AlwaysRoom(d.slots, keys, e.key);
    ghost var s, out := d.Abstract(), d.out;
    d.Dump(e.key, e.chunk);
    NextKeys(s, e.key, e.chunk);
    assert Keys(d.slots) <= keys by {
      assert d.Abstract().kept.Keys == Keys(d.slots) && s.kept.Keys <= keys;
    }
    ghost var out1 := d.out;
    DumpAll(d, events[1..], keys);
    forall key
      ensures Of(d.out, key) == Of(out, key) + FramesOf(s, events, key)
    {
      OfConcat(out, Tagged(e.key, Emitted(s, e.key, e.chunk)), key);
      OfTagged(e.key, Emitted(s, e.key, e.chunk), key);
      RunStep(Of(out, key), s, events, key);
    }
  }

  lemma NextKeys(s: State, key: Key, chunk: seq<byte>)
    ensures Next(s, key, chunk).kept.Keys <= s.kept.Keys + {key} && (s.traffic ==> Next(s, key, chunk).traffic)
  {
    hide Deframe, Detect;
  }

  lemma RunStep(before: seq<seq<byte>>, s: State, events: seq<Event>, key: Key)
    requires events != []
    ensures var e := events[0];
            before + (if e.key == key then Emitted(s, e.key, e.chunk) else [])
            + FramesOf(Next(s, e.key, e.chunk), events[1..], key) == before + FramesOf(s, events, key)
  {
    hide Emitted, Next;
  }

  // ---- before PPP has been recognised ----

  const FRESH := State(false, map[])

  /** The octets of one stream that are deframed: whatever stream PPP is first recognised in, that chunk counts from where
      it is recognised, and every later chunk of any stream counts whole. */
  function Seen(events: seq<Event>, key: Key): seq<byte> {
    if events == [] then []
    else
      var e, p := events[0], Detect(events[0].chunk);
      if p < 0 then Seen(events[1..], key) else (if e.key == key then e.chunk[p..] else []) + StreamOf(events[1..], key)
  }

  /** Where in a stream that is. */
  function StartOf(events: seq<Event>, key: Key): (a: nat)
    ensures a <= |StreamOf(events, key)|
  {
    if events == [] then 0
    else
      var e, p := events[0], Detect(events[0].chunk);
      if p < 0 then |if e.key == key then e.chunk else []| + StartOf(events[1..], key) else if e.key == key then p else 0
  }

  lemma {:induction false} SeenIs(events: seq<Event>, key: Key)
    ensures Seen(events, key) == StreamOf(events, key)[StartOf(events, key)..]
  {
    hide Detect;
    if events != [] {
      SeenIs(events[1..], key);
    }
  }

  /** Streams from their beginning, in any interleaving: what comes before the first recognition in any of them is lost,
      and from there on the chunks no longer matter. */
  lemma {:induction false} FromStart(events: seq<Event>, key: Key)
    ensures FramesOf(FRESH, events, key) == Deframe(StreamOf(events, key)[StartOf(events, key)..]).frames
  {
    hide Deframe, Detect;
    SeenIs(events, key);
    SeenFrames(events, key);
  }

  lemma {:induction false} SeenFrames(events: seq<Event>, key: Key)
    ensures FramesOf(FRESH, events, key) == Deframe(Seen(events, key)).frames
  {
    hide Deframe, Detect;
    if events == [] {
      EmptyQuiet();
    } else {
      var e, rest := events[0], events[1..];
      var p := Detect(e.chunk);
      if p < 0 {
        SeenFrames(rest, key);
        assert [] + FramesOf(FRESH, rest, key) == FramesOf(FRESH, rest, key);
      } else {
        var s', later := Next(FRESH, e.key, e.chunk), StreamOf(rest, key);
        assert [] + e.chunk[p..] == e.chunk[p..] && [] + later == later;
        NextQuiet(FRESH, e.key, e.chunk);
        ChunkingIndependence(s', rest, key);
        if e.key == key {
          DeframeConcat(e.chunk[p..], later);
        } else {
          assert [] + FramesOf(s', rest, key) == FramesOf(s', rest, key);
        }
      }
    }
  }

  /** The end of the first flag from b on, or of the stream. */
  function FlagEnd(s: seq<byte>, b: nat): (n: nat)
    requires b <= |s|
    ensures b <= n <= |s|
  {
    if FlagFrom(s, b) < |s| then FlagFrom(s, b) + 1 else |s|
  }

  /** Starting at b instead of a loses exactly the frames that end at or before the first flag from b on. */
  lemma LateStart(s: seq<byte>, a: nat, b: nat)
    requires a <= b <= |s|
    ensures Deframe(s[a..]).frames == Deframe(s[a..FlagEnd(s, b)]).frames + Deframe(s[b..]).frames
  {
    hide Deframe, DeframeAt, FlagFrom;
    var p := FlagFrom(s, b);
    NoFlagBefore(s, b);
    if p < |s| {
      var x, y := s[a..p + 1], s[p + 1..];
      assert s[a..] == x + y;
      DeframeConcat(x, y);
      EndsInFlag(x);
      assert [FLAG] + y == s[p..];
      FromFlag(s[p..]);
      assert s[b..] == s[b..p] + s[p..];
      SkipToFlag(s[b..p], s[p..]);
    } else {
      assert s[a..|s|] == s[a..] && s[b..|s|] == s[b..];
      NoFlag(s[b..]);
      assert Deframe(s[a..]).frames + [] == Deframe(s[a..]).frames;
    }
  }

  lemma NoFlag(s: seq<byte>)
    requires FLAG !in s
    ensures Deframe(s) == Deframed([], s)
  {
    hide DeframeAt;
    assert s[0..|s|] == s;
    FlagIs(s, 0, |s|);
  }

  /** After a flag only the flag is kept. */
  lemma EndsInFlag(x: seq<byte>)
    requires |x| > 0 && x[|x| - 1] == FLAG
    ensures Deframe(x).rest == [FLAG]
  {
    hide DeframeAt, FlagFrom;
    var p := FlagFrom(x, 0);
    FlagNotAfter(x, 0, |x| - 1);
    EndsInFlagAt(x[p..]);
  }

  lemma {:induction false} EndsInFlagAt(x: seq<byte>)
    requires |x| > 0 && x[0] == FLAG && x[|x| - 1] == FLAG
    ensures DeframeAt(x).rest == [FLAG]
    decreases |x|
  {
    hide DeframeAt, FlagFrom, FrameBetween;
    if |x| == 1 {
      AtEnd(x);
    } else {
      FlagNotAfter(x, 1, |x| - 1);
      AtFrame(x, FlagFrom(x, 1));
      EndsInFlagAt(x[FlagFrom(x, 1)..]);
    }
  }

  lemma {:induction false} FlagNotAfter(y: seq<byte>, from: nat, j: nat)
    requires from <= j < |y| && y[j] == FLAG
    ensures FlagFrom(y, from) <= j
    decreases j - from
  {
    if y[from] != FLAG {
      FlagNotAfter(y, from + 1, j);
    }
  }

  /** Some octet that is not a flag stands between two flags. */
  ghost predicate HoldsFrame(x: seq<byte>) {
    exists i, k, j :: 0 <= i < k < j < |x| && x[i] == FLAG && x[k] != FLAG && x[j] == FLAG
  }

  /** A stretch of octets yields a frame if and only if something stands between two of its flags. */
  lemma FramesIff(x: seq<byte>)
    ensures Deframe(x).frames != [] <==> HoldsFrame(x)
  {
    hide DeframeAt, FlagFrom;
    var p := FlagFrom(x, 0);
    NoFlagBefore(x, 0);
    if p < |x| {
      var y := x[p..];
      FramesAtIff(y);
      if i, k, j :| 0 <= i < k < j < |x| && x[i] == FLAG && x[k] != FLAG && x[j] == FLAG {
        FlagNotAfter(x, 0, i);
        assert y[i - p] == FLAG && y[k - p] != FLAG && y[j - p] == FLAG;
      }
      if i, k, j :| 0 <= i < k < j < |y| && y[i] == FLAG && y[k] != FLAG && y[j] == FLAG {
        assert x[i + p] == FLAG && x[k + p] != FLAG && x[j + p] == FLAG;
      }
    } else {
      assert x[0..|x|] == x;
      assert forall i :: 0 <= i < |x| ==> x[i] in x;
    }
  }

  lemma {:induction false} FramesAtIff(y: seq<byte>)
    requires |y| > 0 && y[0] == FLAG
    ensures DeframeAt(y).frames != [] <==> HoldsFrame(y)
    decreases |y|
  {
    hide DeframeAt, FlagFrom;
    var q := FlagFrom(y, 1);
    NoFlagBefore(y, 1);
    if q == |y| {
      AtEnd(y);
      assert y[1..q] == y[1..];
      assert forall j :: 0 < j < |y| ==> y[j] == y[1..][j - 1];
    } else {
      var z := y[q..];
      AtFrame(y, q);
      FramesAtIff(z);
      if q > 1 {
        assert y[1] == y[1..q][0];
        assert y[0] == FLAG && y[1] != FLAG && y[q] == FLAG;
      } else {
        if i, k, j :| 0 <= i < k < j < |y| && y[i] == FLAG && y[k] != FLAG && y[j] == FLAG {
          assert z[0] == FLAG && z[k - 1] != FLAG && z[j - 1] == FLAG;
        }
        if i, k, j :| 0 <= i < k < j < |z| && z[i] == FLAG && z[k] != FLAG && z[j] == FLAG {
          assert y[i + 1] == FLAG && y[k + 1] != FLAG && y[j + 1] == FLAG;
        }
      }
    }
  }

  /** Before recognition the chunks do matter, and exactly this much: two runs that carry the same octets on a stream, cut
      and interleaved with other streams in any two ways, give the same frames for it if and only if nothing stands
      between two flags from the earlier start to the first flag at or after the later one. */
  lemma RecognitionIff(run: seq<Event>, run': seq<Event>, key: Key)
    requires StreamOf(run, key) == StreamOf(run', key)
    ensures var s, a, b := StreamOf(run, key), StartOf(run, key), StartOf(run', key);
            FramesOf(FRESH, run, key) == FramesOf(FRESH, run', key)
            <==> !HoldsFrame(if a <= b then s[a..FlagEnd(s, b)] else s[b..FlagEnd(s, a)])
  {
    hide Deframe, FlagEnd, HoldsFrame;
    var s, a, b := StreamOf(run, key), StartOf(run, key), StartOf(run', key);
    FromStart(run, key);
    FromStart(run', key);
    if a <= b {
      LateStart(s, a, b);
      FramesIff(s[a..FlagEnd(s, b)]);
    } else {
      LateStart(s, b, a);
      FramesIff(s[b..FlagEnd(s, a)]);
    }
  }

  lemma {:induction false} SearchFinds(c: seq<byte>, m: seq<byte>, i: nat, j: nat)
    requires i <= j && j + |m| < |c| && c[j..j + |m|] == m
    ensures Search(c, m, i) >= 0
    decreases j - i
  {
    if i < j {
      SearchFinds(c, m, i + 1, j);
    }
  }

  /** A stream whose first frame opens across the boundary of two chunks: fed whole it gives frames,
      fed in those chunks it gives none. */
  lemma SplitMagicIsMissed(key: Key)
    ensures var c, d := [0, 0, 0, 0, 0x7e, 0xff, 0x03], [0xc0, 0x21, 1, 2, 3, 0x7e, 0];
            FramesOf(FRESH, [Event(key, c), Event(key, d)], key) != FramesOf(FRESH, [Event(key, c + d)], key)
  {
    hide FramesOf, Detect, StreamOf, StartOf, FlagFrom;
    var c: seq<byte>, d: seq<byte> := [0, 0, 0, 0, 0x7e, 0xff, 0x03], [0xc0, 0x21, 1, 2, 3, 0x7e, 0];
    var s := c + d;
    MagicAcross();
    StreamsAre(key, c, d);
    var x := s[4..FlagEnd(s, 14)];
    assert x[0] == FLAG && x[1] != FLAG && x[8] == FLAG;
    RecognitionIff([Event(key, c), Event(key, d)], [Event(key, s)], key);
  }

  lemma MagicAcross()
    ensures var c, d := [0, 0, 0, 0, 0x7e, 0xff, 0x03], [0xc0, 0x21, 1, 2, 3, 0x7e, 0];
            Detect(c) < 0 && Detect(d) < 0 && Detect(c + d) == 4
  {
    hide Search;
    var s: seq<byte> := [0, 0, 0, 0, 0x7e, 0xff, 0x03] + [0xc0, 0x21, 1, 2, 3, 0x7e, 0];
    assert s[4..9] == MAGIC1;
    SearchFinds(s, MAGIC1, 0, 4);
  }

  lemma StreamsAre(key: Key, c: seq<byte>, d: seq<byte>)
    ensures StreamOf([Event(key, c), Event(key, d)], key) == c + d == StreamOf([Event(key, c + d)], key)
    ensures Detect(c) < 0 && Detect(d) < 0 ==> StartOf([Event(key, c), Event(key, d)], key) == |c| + |d|
    ensures Detect(c + d) >= 0 ==> StartOf([Event(key, c + d)], key) == Detect(c + d)
  {
    hide Detect;
    var e, f := Event(key, c), Event(key, d);
    assert [e, f][1..] == [f] && [f][1..] == [];
    assert StreamOf([f], key) == d + StreamOf([], key) == d;
    assert [Event(key, c + d)][1..] == [];
    assert StreamOf([Event(key, c + d)], key) == c + d + StreamOf([], key) == c + d;
    assert StartOf([], key) == 0;
    if Detect(d) < 0 {
      assert StartOf([f], key) == |d|;
    }
  }

  // ---- stuffed frames ----

  /** Octet stuffing per section 4.2 of RFC 1662, for a set of octets to be escaped. */
  function Stuff(p: seq<byte>, escaped: set<byte>): seq<byte> {
    if p == [] then [] else (if p[0] in escaped then [ESC, Flip(p[0])] else [p[0]]) + Stuff(p[1..], escaped)
  }

  /** Frames on the wire: one flag between neighbours. */
  function Wire(payloads: seq<seq<byte>>, escaped: set<byte>): seq<byte> {
    if payloads == [] then [FLAG] else [FLAG] + Stuff(payloads[0], escaped) + Wire(payloads[1..], escaped)
  }

  /** Escape and flag are escaped, and no octet is that would come out as a flag. */
  ghost predicate Escaping(escaped: set<byte>) {
    ESC in escaped && FLAG in escaped && Flip(FLAG) !in escaped
  }

  lemma {:induction false} UnslipStuff(p: seq<byte>, escaped: set<byte>)
    requires Escaping(escaped)
    ensures Unslip(Stuff(p, escaped)) == p && FLAG !in Stuff(p, escaped) && (p != [] ==> Stuff(p, escaped) != [])
  {
    if p != [] {
      var s, rest := Stuff(p, escaped), Stuff(p[1..], escaped);
      UnslipStuff(p[1..], escaped);
      assert p == [p[0]] + p[1..];
      if p[0] in escaped {
        assert s[2..] == rest && Flip(Flip(p[0])) == p[0] && Flip(p[0]) != FLAG;
      } else {
        assert s[1..] == rest;
      }
    }
  }

  /** Frames stuffed this way come back as their original contents, after any amount of noise. */
  lemma {:induction false} StuffedFramesComeBack(noise: seq<byte>, payloads: seq<seq<byte>>, escaped: set<byte>)
    requires Escaping(escaped) && FLAG !in noise && forall i :: 0 <= i < |payloads| ==> payloads[i] != []
    ensures Deframe(noise + Wire(payloads, escaped)) == Deframed(payloads, [FLAG])
  {
    hide Deframe, DeframeAt;
    SkipToFlag(noise, Wire(payloads, escaped));
    WireDeframes(payloads, escaped);
  }

  /** A frame octet by octet: flags 7e around it, and 7d 5e for a 7e inside. */
  lemma EscapedFlag()
    ensures Deframe([0x7e, 0x01, 0x7d, 0x5e, 0x7e]) == Deframed([[0x01, 0x7e]], [0x7e])
  {
    hide Deframe, DeframeAt, FlagFrom;
    var b: seq<byte>, t: seq<byte> := [0x7e, 0x01, 0x7d, 0x5e, 0x7e], [0x01, 0x7d, 0x5e];
    FromFlag(b);
    assert b[1..4] == t && b[4..] == [FLAG];
    FlagIs(b, 1, 4);
    AtFrame(b, 4);
    FlagIs([FLAG], 1, 1);
    AtEnd([FLAG]);
    assert t[1..] == [0x7d, 0x5e] && t[1..][2..] == [] && Unslip([]) == [];
    assert Unslip(t[1..]) == [Flip(0x5e)] + [];
    assert Unslip(t) == [0x01] + Unslip(t[1..]) == [0x01, 0x7e];
    assert FrameBetween(b, 0, 4) == [[0x01, 0x7e]];
    assert [[0x01, 0x7e]] + [] == [[0x01, 0x7e]];
  }

  /** An escape right before the closing flag takes that flag as the escaped octet. */
  lemma TrailingEscape()
    ensures Deframe([0x7e, 0x7d, 0x7e]) == Deframed([[0x5e]], [0x7e])
  {
    hide Deframe, DeframeAt, FlagFrom;
    var b: seq<byte> := [0x7e, 0x7d, 0x7e];
    FromFlag(b);
    assert b[1..2] == [ESC] && b[2..] == [FLAG];
    FlagIs(b, 1, 2);
    AtFrame(b, 2);
    FlagIs([FLAG], 1, 1);
    AtEnd([FLAG]);
    assert FrameBetween(b, 0, 2) == [[0x5e]];
    assert [[0x5e]] + [] == [[0x5e]];
  }

  lemma {:induction false} WireDeframes(payloads: seq<seq<byte>>, escaped: set<byte>)
    requires Escaping(escaped) && forall i :: 0 <= i < |payloads| ==> payloads[i] != []
    ensures Wire(payloads, escaped)[0] == FLAG
    ensures DeframeAt(Wire(payloads, escaped)) == Deframed(payloads, [FLAG])
  {
    hide DeframeAt, FlagFrom, Unslip, Stuff;
    var w := Wire(payloads, escaped);
    if payloads == [] {
      assert w[1..1] == [];
      FlagIs(w, 1, 1);
      AtEnd(w);
    } else {
      var t, w' := Stuff(payloads[0], escaped), Wire(payloads[1..], escaped);
      WireDeframes(payloads[1..], escaped);
      UnslipStuff(payloads[0], escaped);
      var q := 1 + |t|;
      assert w[1..q] == t && w[q..] == w' && w[q] == w'[0];
      FlagIs(w, 1, q);
      AtFrame(w, q);
      assert FrameBetween(w, 0, q) == [payloads[0]];
      assert payloads == [payloads[0]] + payloads[1..];
    }
  }
}

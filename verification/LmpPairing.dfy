/** The link manager dumper's pairing automaton: it collects the seven values of a pairing and dumps them. */
module LmpPairing {
  import opened Bytes

  datatype Kind = InRand | CombKey | AuRand | Sres

  datatype Event = Event(kind: Kind, val: seq<byte>)

  /** The part of the payload that is stored: 4 octets of a response, 16 of anything else. */
  function Copied(e: Event): seq<byte> {
    var n := if e.kind == Sres then 4 else 16;
    if |e.val| < n then e.val else e.val[..n]
  }

  /** pairing_state: what is awaited next. */
  datatype Phase = IN_RAND | COMB_KEY_M | COMB_KEY_S | AU_RAND_M | SRES_M | AU_RAND_S | SRES_S

  /** pairing_data. */
  datatype Values = Values(inRand: seq<byte>, combKeyM: seq<byte>, combKeyS: seq<byte>, auRandM: seq<byte>,
                           sresM: seq<byte>, auRandS: seq<byte>, sresS: seq<byte>)

  datatype State = State(phase: Phase, data: Values)

  function Next(s: State, e: Event): State {
    match (e.kind, s.phase)
    case (InRand, _) => State(COMB_KEY_M, s.data.(inRand := Copied(e)))
    case (CombKey, COMB_KEY_M) => State(COMB_KEY_S, s.data.(combKeyM := Copied(e)))
    case (CombKey, COMB_KEY_S) => State(AU_RAND_M, s.data.(combKeyS := Copied(e)))
    case (AuRand, AU_RAND_M) => State(SRES_M, s.data.(auRandM := Copied(e)))
    case (AuRand, AU_RAND_S) => State(SRES_S, s.data.(auRandS := Copied(e)))
    case (Sres, SRES_M) => State(AU_RAND_S, s.data.(sresM := Copied(e)))
    case (Sres, SRES_S) => State(IN_RAND, s.data.(sresS := Copied(e)))
    case _ => State(IN_RAND, s.data)
  }

  class Automaton {
    var phase: Phase
    var data: Values
    var dumps: seq<Values>

    constructor ()
      ensures phase == IN_RAND && dumps == []
    {
      phase, data, dumps := IN_RAND, Values([], [], [], [], [], [], []), [];
    }

    /** in_rand, comb_key, au_rand and sres. */
    method Handle(e: Event)
      modifies this
      ensures State(phase, data) == Next(State(old(phase), old(data)), e)
      ensures dumps == old(dumps) + if e.kind == Sres && old(phase) == SRES_S then [data] else []
    {
      match e.kind {
        case InRand =>
          data := data.(inRand := Copied(e));
          phase := COMB_KEY_M;
        case CombKey =>
          match phase {
            case COMB_KEY_M =>
              data := data.(combKeyM := Copied(e));
              phase := COMB_KEY_S;
            case COMB_KEY_S =>
              data := data.(combKeyS := Copied(e));
              phase := AU_RAND_M;
            case _ => phase := IN_RAND;
          }
        case AuRand =>
          match phase {
            case AU_RAND_M =>
              data := data.(auRandM := Copied(e));
              phase := SRES_M;
            case AU_RAND_S =>
              data := data.(auRandS := Copied(e));
              phase := SRES_S;
            case _ => phase := IN_RAND;
          }
        case Sres =>
          match phase {
            case SRES_M =>
              data := data.(sresM := Copied(e));
              phase := AU_RAND_S;
            case SRES_S =>
              data := data.(sresS := Copied(e));
              phase := IN_RAND;
              dumps := dumps + [data];
            case _ => phase := IN_RAND;
          }
      }
    }
  }

  /** The state after a history. */
  ghost function After(s: State, h: seq<Event>): State {
    if h == [] then s else Next(After(s, h[..|h| - 1]), h[|h| - 1])
  }

  /** Handling the last event of a history dumps. */
  ghost predicate Dumps(s: State, h: seq<Event>) {
    h != [] && h[|h| - 1].kind == Sres && After(s, h[..|h| - 1]).phase == SRES_S
  }

  const PAIRING: seq<Kind> := [InRand, CombKey, CombKey, AuRand, Sres, AuRand, Sres]

  /** The last `j` events are the first `j` of a pairing. */
  ghost predicate EndsWith(h: seq<Event>, j: nat)
    requires j <= 7
  {
    j <= |h| && forall i :: 0 <= i < j ==> h[|h| - j + i].kind == PAIRING[i]
  }

  function Progress(p: Phase): nat {
    match p
    case IN_RAND => 0 case COMB_KEY_M => 1 case COMB_KEY_S => 2 case AU_RAND_M => 3
    case SRES_M => 4 case AU_RAND_S => 5 case SRES_S => 6
  }

  function Value(d: Values, i: nat): seq<byte> {
    if i == 0 then d.inRand else if i == 1 then d.combKeyM else if i == 2 then d.combKeyS
    else if i == 3 then d.auRandM else if i == 4 then d.sresM else if i == 5 then d.auRandS else d.sresS
  }

  /** The first `j` stored values are copied from the last `j` events. */
  ghost predicate Holds(d: Values, h: seq<Event>, j: nat) {
    j <= |h| && forall i :: 0 <= i < j ==> Value(d, i) == Copied(h[|h| - j + i])
  }

  /** The phase is the one stretch of a pairing the history ends with, and its values are stored. */
  ghost predicate Tracks(s: State, h: seq<Event>) {
    && Holds(s.data, h, Progress(s.phase))
    && forall j :: 0 < j < 7 ==> (EndsWith(h, j) <==> j == Progress(s.phase))
  }

  lemma EndsWithSnoc(h: seq<Event>, e: Event, j: nat)
    requires j < 7
    ensures EndsWith(h + [e], j + 1) <==> EndsWith(h, j) && e.kind == PAIRING[j]
  {
    var h' := h + [e];
    if j <= |h| {
      forall i | 0 <= i < j
        ensures h'[|h'| - (j + 1) + i].kind == PAIRING[i] <==> h[|h| - j + i].kind == PAIRING[i]
      {
      }
      assert h'[|h'| - (j + 1) + j] == e;
    }
  }

  lemma HoldsSnoc(d: Values, d': Values, h: seq<Event>, e: Event, j: nat)
    requires j < 7 && Holds(d, h, j) && Value(d', j) == Copied(e) && forall i :: 0 <= i < j ==> Value(d', i) == Value(d, i)
    ensures Holds(d', h + [e], j + 1)
  {
    var h' := h + [e];
    forall i | 0 <= i < j + 1
      ensures Value(d', i) == Copied(h'[|h'| - (j + 1) + i])
    {
      assert i < j ==> h'[|h'| - (j + 1) + i] == h[|h| - j + i];
    }
  }

  lemma TracksNext(s: State, h: seq<Event>, e: Event)
    requires Tracks(s, h)
    ensures Tracks(Next(s, e), h + [e])
    ensures EndsWith(h + [e], 7) <==> e.kind == Sres && s.phase == SRES_S
    ensures EndsWith(h + [e], 7) ==> Holds(Next(s, e).data, h + [e], 7)
  {
    hide EndsWith, Holds;
    var k, s' := Progress(s.phase), Next(s, e);
    forall j: nat | 0 < j <= 7
      ensures EndsWith(h + [e], j) <==> (j == 1 || j == k + 1) && e.kind == PAIRING[j - 1]
    {
      EndsWithSnoc(h, e, j - 1);
      Trivially(s.data, h);
    }
    Trivially(s'.data, h + [e]);
    if e.kind == InRand {
      Trivially(s.data, h);
      HoldsSnoc(s.data, s'.data, h, e, 0);
    } else if e.kind == PAIRING[k] {
      HoldsSnoc(s.data, s'.data, h, e, k);
    }
  }

  lemma Trivially(d: Values, h: seq<Event>)
    ensures EndsWith(h, 0) && Holds(d, h, 0)
  {
  }

  lemma {:induction false} AlwaysTracks(s: State, h: seq<Event>)
    requires s.phase == IN_RAND
    ensures Tracks(After(s, h), h)
  {
    if h != [] {
      AlwaysTracks(s, h[..|h| - 1]);
      assert h == h[..|h| - 1] + [h[|h| - 1]];
      TracksNext(After(s, h[..|h| - 1]), h[..|h| - 1], h[|h| - 1]);
    }
  }

  /** In every event sequence the dump fires exactly when the last seven pairing events are those of a pairing, and
      the seven values dumped are copied from them. */
  lemma DumpIff(s: State, h: seq<Event>)
    requires s.phase == IN_RAND
    ensures Dumps(s, h) <==> EndsWith(h, 7)
    ensures Dumps(s, h) ==> Holds(After(s, h).data, h, 7)
  {
    if h != [] {
      var pre, e := h[..|h| - 1], h[|h| - 1];
      assert h == pre + [e];
      AlwaysTracks(s, pre);
      TracksNext(After(s, pre), pre, e);
    }
  }

  /** What is dumped, event by event: 16 octets of every random number and key, 4 of each response. */
  lemma DumpedValues(s: State, h: seq<Event>, k: nat)
    requires s.phase == IN_RAND && Dumps(s, h) && |h| == k + 7
    requires forall i :: k <= i < |h| ==> |h[i].val| >= 16
    ensures After(s, h).data == Values(h[k].val[..16], h[k + 1].val[..16], h[k + 2].val[..16], h[k + 3].val[..16],
                                       h[k + 4].val[..4], h[k + 5].val[..16], h[k + 6].val[..4])
  {
    hide After, Dumps;
    DumpIff(s, h);
    var d := After(s, h).data;
    assert forall i :: 0 <= i < 7 ==> h[|h| - 7 + i].kind == PAIRING[i] && Value(d, i) == Copied(h[|h| - 7 + i]);
    assert Value(d, 0) == d.inRand && Value(d, 1) == d.combKeyM && Value(d, 2) == d.combKeyS && Value(d, 3) == d.auRandM;
    assert Value(d, 4) == d.sresM && Value(d, 5) == d.auRandS && Value(d, 6) == d.sresS;
  }
}

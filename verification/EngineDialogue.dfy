/** The whole remapping dialogue: what it guarantees for every configuration, answer script and
    fixed set of ports in use. */
module EngineDialogue {
  import opened Options
  import opened EnginePorts
  import opened EngineRemap

  // ---- A free result, for every configuration ----

  lemma {:induction false} FirstBusyFinds(spans: seq<Span>, inUse: int -> bool)
    ensures FirstBusy(spans, inUse).None? ==> forall s :: s in spans ==> !Busy(s, inUse)
    ensures FirstBusy(spans, inUse).Some? ==>
              FirstBusy(spans, inUse).value in spans && Busy(FirstBusy(spans, inUse).value, inUse)
  {
    if spans != [] {
      assert spans == [spans[0]] + spans[1..];
      FirstBusyFinds(spans[1..], inUse);
    }
  }

  lemma NoBusySpanNoBusyPort(c: EngineConfig, inUse: int -> bool)
    requires FirstBusy(Spans(ListenPorts(c)), inUse).None?
    ensures forall x :: x in ListenPorts(c) ==> !inUse(x.1)
  {
    FirstBusyFinds(Spans(ListenPorts(c)), inUse);
    forall x | x in ListenPorts(c) ensures !inUse(x.1) {
      EveryPortCovered(c, x);
    }
  }

  /** When the dialogue reports success, no port the engine will listen on is in use, even for
      overlapping or out-of-range configurations. */
  lemma {:induction false} FreeMeansFree(c: EngineConfig, o: Overrides, reserved: set<int>, inUse: int -> bool,
                                         answers: seq<Answer>, moves: seq<Span>)
    ensures var r := Offer(c, o, reserved, inUse, answers, moves);
            r.Free? ==> ApplyOverrides(c, r.overrides).Some? &&
                        forall x :: x in ListenPorts(ApplyOverrides(c, r.overrides).value) ==> !inUse(x.1)
    decreases |answers|
  {
    var config := ApplyOverrides(c, o);
    if config.Some? {
      var spans := Spans(ListenPorts(config.value));
      var busy := FirstBusy(spans, inUse);
      if busy.None? {
        NoBusySpanNoBusyPort(config.value, inUse);
      } else {
        var (chosen, rest) := Prompt(busy.value, spans, reserved, inUse, answers);
        if chosen.Some? {
          FreeMeansFree(c, Store(o, busy.value.kind, chosen.value), reserved, inUse, rest,
                        moves + [Span(busy.value.kind, chosen.value, busy.value.width)]);
        }
      }
    }
  }

  // ---- Well-formed ranges ----

  lemma {:induction false} SpansListRanges(ports: seq<Labelled>, kinds: seq<Kind>, s: Span)
    ensures s in SpansOf(ports, kinds) <==> s.kind in kinds && SpanOf(ports, s.kind) == Some(s)
  {
    if kinds != [] {
      assert kinds == [kinds[0]] + kinds[1..];
      SpansListRanges(ports, kinds[1..], s);
    }
  }

  lemma SpansAreRanges(c: EngineConfig, s: Span)
    requires WellFormed(c)
    ensures s in Spans(ListenPorts(c)) <==> Range(c, s.kind) == Some(s)
  {
    SpansListRanges(ListenPorts(c), KIND_ORDER, s);
    KindListed(s.kind);
    GroupingExact(c, s.kind);
  }

  ghost predicate Avoids(s: Span, reserved: set<int>) {
    forall p :: Covers(s, p) ==> p !in reserved
  }

  lemma RangeNotEmpty(c: EngineConfig, kind: Kind)
    requires Range(c, kind).Some?
    ensures Range(c, kind).value.width >= 1 && Range(c, kind).value.kind == kind
  {
  }

  /** An accepted block is disjoint from every other range. */
  lemma AcceptedApart(c: EngineConfig, s: Span, p: int, reserved: set<int>, inUse: int -> bool, other: Kind)
    requires WellFormed(c) && Range(c, s.kind) == Some(s) && other != s.kind && Range(c, other).Some?
    requires Acceptable(p, s.width, Spans(ListenPorts(c)), s.kind, reserved, inUse)
    ensures Apart(Span(s.kind, p, s.width), Range(c, other).value)
  {
    var r := Range(c, other).value;
    RangeNotEmpty(c, other);
    RangeNotEmpty(c, s.kind);
    SpansAreRanges(c, r);
    var q := if p > r.anchor then p else r.anchor;
    if p <= q < p + s.width && Covers(r, q) {
      assert Blocked(Spans(ListenPorts(c)), s.kind, reserved, q);
    }
  }

  lemma MoveKeepsWellFormed(c: EngineConfig, c': EngineConfig, s: Span, p: int, reserved: set<int>, inUse: int -> bool)
    requires WellFormed(c) && Range(c, s.kind) == Some(s)
    requires Acceptable(p, s.width, Spans(ListenPorts(c)), s.kind, reserved, inUse)
    requires Range(c', s.kind) == Some(Span(s.kind, p, s.width))
    requires forall other :: other != s.kind ==> Range(c', other) == Range(c, other)
    ensures WellFormed(c')
    ensures !Busy(Span(s.kind, p, s.width), inUse) && Avoids(Span(s.kind, p, s.width), reserved)
  {
    forall k, l | k != l && Range(c', k).Some? && Range(c', l).Some?
      ensures Apart(Range(c', k).value, Range(c', l).value)
    {
      if k == s.kind { AcceptedApart(c, s, p, reserved, inUse, l); }
      else if l == s.kind { AcceptedApart(c, s, p, reserved, inUse, k); }
    }
    forall q | Covers(Span(s.kind, p, s.width), q) ensures q !in reserved && !inUse(q) {
      assert !Blocked(Spans(ListenPorts(c)), s.kind, reserved, q);
    }
  }

  // ---- The moves of a whole dialogue ----

  ghost predicate DistinctKinds(ms: seq<Span>) {
    forall i, j :: 0 <= i < j < |ms| ==> ms[i].kind != ms[j].kind
  }

  ghost predicate MovesKind(ms: seq<Span>, kind: Kind) {
    exists m :: m in ms && m.kind == kind
  }

  /** One configuration becomes another by moving busy ranges, each once, to blocks that are free and
      reserved by nobody; everything else stays. */
  ghost predicate Moved(c: EngineConfig, c': EngineConfig, ms: seq<Span>, reserved: set<int>, inUse: int -> bool) {
    && DistinctKinds(ms)
    && (forall m :: m in ms ==>
          && Range(c, m.kind).Some? && Busy(Range(c, m.kind).value, inUse) && Range(c, m.kind).value.width == m.width
          && Range(c', m.kind) == Some(m) && !Busy(m, inUse) && Avoids(m, reserved))
    && (forall kind :: !MovesKind(ms, kind) ==> Range(c', kind) == Range(c, kind))
  }

  lemma MovedStep(c: EngineConfig, c1: EngineConfig, c': EngineConfig, s: Span, p: int, ms: seq<Span>,
                  reserved: set<int>, inUse: int -> bool)
    requires Range(c, s.kind) == Some(s) && Busy(s, inUse)
    requires var m := Span(s.kind, p, s.width);
             Range(c1, s.kind) == Some(m) && !Busy(m, inUse) && Avoids(m, reserved)
    requires forall other :: other != s.kind ==> Range(c1, other) == Range(c, other)
    requires Moved(c1, c', ms, reserved, inUse)
    ensures Moved(c, c', [Span(s.kind, p, s.width)] + ms, reserved, inUse)
  {
    var m := Span(s.kind, p, s.width);
    var all := [m] + ms;
    forall x | x in ms ensures x.kind != s.kind {
      assert Busy(Range(c1, x.kind).value, inUse);
    }
    assert !MovesKind(ms, s.kind);
    forall kind | !MovesKind(all, kind) ensures Range(c', kind) == Range(c, kind) {
      assert m in all && forall x :: x in ms ==> x in all;
      assert kind != s.kind && !MovesKind(ms, kind);
    }
  }

  /** The configuration in force when the dialogue ends. */
  ghost function FinalConfig(c: EngineConfig, r: Outcome): EngineConfig
    requires !r.Raised? && ApplyOverrides(c, r.overrides).Some?
  {
    ApplyOverrides(c, r.overrides).value
  }

  /** A dialogue that started from configuration `config` and accepted the moves ms. */
  ghost predicate Ended(c: EngineConfig, config: EngineConfig, r: Outcome, ms: seq<Span>, reserved: set<int>,
                        inUse: int -> bool) {
    && !r.Raised? && ApplyOverrides(c, r.overrides).Some?
    && WellFormed(FinalConfig(c, r))
    && Moved(config, FinalConfig(c, r), ms, reserved, inUse)
    && (r.Free? ==> forall kind :: Range(FinalConfig(c, r), kind).Some? ==>
        !Busy(Range(FinalConfig(c, r), kind).value, inUse))
  }

  lemma NoneBusy(config: EngineConfig, inUse: int -> bool)
    requires WellFormed(config) && FirstBusy(Spans(ListenPorts(config)), inUse).None?
    ensures forall kind :: Range(config, kind).Some? ==> !Busy(Range(config, kind).value, inUse)
  {
    FirstBusyFinds(Spans(ListenPorts(config)), inUse);
    forall kind | Range(config, kind).Some? ensures !Busy(Range(config, kind).value, inUse) {
      SpansAreRanges(config, Range(config, kind).value);
    }
  }

  /** One accepted answer. */
  lemma OneMove(c: EngineConfig, o: Overrides, s: Span, p: int, reserved: set<int>, inUse: int -> bool)
    requires ApplyOverrides(c, o).Some? && WellFormed(ApplyOverrides(c, o).value)
    requires var spans := Spans(ListenPorts(ApplyOverrides(c, o).value));
             FirstBusy(spans, inUse) == Some(s) && Acceptable(p, s.width, spans, s.kind, reserved, inUse)
    ensures Range(ApplyOverrides(c, o).value, s.kind) == Some(s) && Busy(s, inUse)
    ensures ApplyOverrides(c, Store(o, s.kind, p)).Some? && WellFormed(ApplyOverrides(c, Store(o, s.kind, p)).value)
    ensures var config, config1 := ApplyOverrides(c, o).value, ApplyOverrides(c, Store(o, s.kind, p)).value;
            var m := Span(s.kind, p, s.width);
            && Range(config1, s.kind) == Some(m) && !Busy(m, inUse) && Avoids(m, reserved)
            && (forall other :: other != s.kind ==> Range(config1, other) == Range(config, other))
  {
    var config := ApplyOverrides(c, o).value;
    FirstBusyFinds(Spans(ListenPorts(config)), inUse);
    SpansAreRanges(config, s);
    RangeNotEmpty(config, s.kind);
    StoreMoves(c, o, s.kind, p);
    MoveKeepsWellFormed(config, ApplyOverrides(c, Store(o, s.kind, p)).value, s, p, reserved, inUse);
  }

  /** The next accepted move, or none when the dialogue ends here. */
  datatype Next = Stops | Accepts(span: Span, port: int, rest: seq<Answer>)

  ghost function NextMove(c: EngineConfig, o: Overrides, reserved: set<int>, inUse: int -> bool,
                          answers: seq<Answer>): Next
    requires ApplyOverrides(c, o).Some?
  {
    var spans := Spans(ListenPorts(ApplyOverrides(c, o).value));
    match FirstBusy(spans, inUse)
    case None => Stops
    case Some(s) =>
      var (chosen, rest) := Prompt(s, spans, reserved, inUse, answers);
      if chosen.None? then Stops else Accepts(s, chosen.value, rest)
  }

  lemma OfferFollowsNext(c: EngineConfig, o: Overrides, reserved: set<int>, inUse: int -> bool, answers: seq<Answer>,
                         moves: seq<Span>)
    requires ApplyOverrides(c, o).Some?
    ensures var n := NextMove(c, o, reserved, inUse, answers);
            var r := Offer(c, o, reserved, inUse, answers, moves);
            && (n.Accepts? ==> |n.rest| < |answers| &&
                               r == Offer(c, Store(o, n.span.kind, n.port), reserved, inUse, n.rest,
                                          moves + [Span(n.span.kind, n.port, n.span.width)]))
            && (n.Stops? ==> !r.Raised? && r.overrides == o && r.moves == moves)
            && (n.Stops? && r.Free? ==> FirstBusy(Spans(ListenPorts(ApplyOverrides(c, o).value)), inUse).None?)
  {
  }

  lemma StopsEnded(c: EngineConfig, o: Overrides, r: Outcome, reserved: set<int>, inUse: int -> bool)
    requires ApplyOverrides(c, o).Some? && WellFormed(ApplyOverrides(c, o).value) && !r.Raised? && r.overrides == o
    requires r.Free? ==> FirstBusy(Spans(ListenPorts(ApplyOverrides(c, o).value)), inUse).None?
    ensures Ended(c, ApplyOverrides(c, o).value, r, [], reserved, inUse)
  {
    if r.Free? { NoneBusy(ApplyOverrides(c, o).value, inUse); }
  }

  lemma AcceptsMove(c: EngineConfig, o: Overrides, reserved: set<int>, inUse: int -> bool, answers: seq<Answer>)
    requires ApplyOverrides(c, o).Some? && WellFormed(ApplyOverrides(c, o).value)
    requires NextMove(c, o, reserved, inUse, answers).Accepts?
    ensures var n := NextMove(c, o, reserved, inUse, answers);
            MoveOk(c, o, n.span, n.port, reserved, inUse)
  {
    var n := NextMove(c, o, reserved, inUse, answers);
    OneMove(c, o, n.span, n.port, reserved, inUse);
  }

  /** Storing p moves the busy range s to a free block and leaves the ranges well-formed. */
  ghost predicate MoveOk(c: EngineConfig, o: Overrides, s: Span, p: int, reserved: set<int>, inUse: int -> bool) {
    && ApplyOverrides(c, o).Some? && ApplyOverrides(c, Store(o, s.kind, p)).Some?
    && WellFormed(ApplyOverrides(c, Store(o, s.kind, p)).value)
    && Range(ApplyOverrides(c, o).value, s.kind) == Some(s) && Busy(s, inUse)
    && Range(ApplyOverrides(c, Store(o, s.kind, p)).value, s.kind) == Some(Span(s.kind, p, s.width))
    && !Busy(Span(s.kind, p, s.width), inUse) && Avoids(Span(s.kind, p, s.width), reserved)
    && forall other :: other != s.kind ==>
         Range(ApplyOverrides(c, Store(o, s.kind, p)).value, other) == Range(ApplyOverrides(c, o).value, other)
  }

  lemma EndedStep(c: EngineConfig, o: Overrides, s: Span, p: int, r: Outcome, later: seq<Span>, reserved: set<int>,
                  inUse: int -> bool)
    requires MoveOk(c, o, s, p, reserved, inUse)
    requires Ended(c, ApplyOverrides(c, Store(o, s.kind, p)).value, r, later, reserved, inUse)
    ensures Ended(c, ApplyOverrides(c, o).value, r, [Span(s.kind, p, s.width)] + later, reserved, inUse)
  {
    MovedStep(ApplyOverrides(c, o).value, ApplyOverrides(c, Store(o, s.kind, p)).value, FinalConfig(c, r), s, p,
              later, reserved, inUse);
  }

  lemma {:induction false} OfferMoves(c: EngineConfig, o: Overrides, reserved: set<int>, inUse: int -> bool,
                                      answers: seq<Answer>, moves: seq<Span>, r: Outcome) returns (ms: seq<Span>)
    requires ApplyOverrides(c, o).Some? && WellFormed(ApplyOverrides(c, o).value)
    requires r == Offer(c, o, reserved, inUse, answers, moves)
    ensures Ended(c, ApplyOverrides(c, o).value, r, ms, reserved, inUse) && r.moves == moves + ms
    decreases |answers|
  {
    OfferFollowsNext(c, o, reserved, inUse, answers, moves);
    var n := NextMove(c, o, reserved, inUse, answers);
    if n.Stops? {
      StopsEnded(c, o, r, reserved, inUse);
      ms := [];
    } else {
      AcceptsMove(c, o, reserved, inUse, answers);
      var m := Span(n.span.kind, n.port, n.span.width);
      var later := OfferMoves(c, Store(o, n.span.kind, n.port), reserved, inUse, n.rest, moves + [m], r);
      EndedStep(c, o, n.span, n.port, r, later, reserved, inUse);
      ms := [m] + later;
      Assoc(moves, [m], later);
    }
  }

  function Rank(kind: Kind): nat {
    match kind case NodeManager => 0 case Rpc => 1 case Base => 2 case Kv => 3
  }

  lemma {:induction false} AtMostFour(ms: seq<Span>, below: nat)
    requires DistinctKinds(ms) && forall m :: m in ms ==> Rank(m.kind) < below
    ensures |ms| <= below
    decreases below
  {
    if ms != [] {
      if i :| 0 <= i < |ms| && Rank(ms[i].kind) == below - 1 {
        var rest := ms[..i] + ms[i + 1..];
        forall m | m in rest ensures Rank(m.kind) < below - 1 {
          var j :| 0 <= j < |rest| && rest[j] == m;
          var k := if j < i then j else j + 1;
          assert ms[k] == m && k != i;
        }
        assert DistinctKinds(rest);
        AtMostFour(rest, below - 1);
      } else {
        assert ms[0] in ms && Rank(ms[0].kind) < below;
        forall m | m in ms ensures Rank(m.kind) < below - 1 {
          var j :| 0 <= j < |ms| && ms[j] == m;
        }
        AtMostFour(ms, below - 1);
      }
    }
  }

  /** With well-formed ranges and fixed ports in use: every accepted move keeps the ranges apart, at
      most four moves are accepted, only busy ranges move, and a successful dialogue has moved exactly
      the busy ones. */
  lemma DialogueKeepsRanges(c: EngineConfig, o: Overrides, reserved: set<int>, inUse: int -> bool, answers: seq<Answer>)
    requires ApplyOverrides(c, o).Some? && WellFormed(ApplyOverrides(c, o).value)
    ensures var before := ApplyOverrides(c, o).value;
            var r := Offer(c, o, reserved, inUse, answers, []);
            && !r.Raised? && ApplyOverrides(c, r.overrides).Some?
            && WellFormed(FinalConfig(c, r))
            && Moved(before, FinalConfig(c, r), r.moves, reserved, inUse)
            && |r.moves| <= 4
            && (r.Free? ==> forall kind :: MovesKind(r.moves, kind) <==>
                                             Range(before, kind).Some? && Busy(Range(before, kind).value, inUse))
  {
    var r := Offer(c, o, reserved, inUse, answers, []);
    var ms := OfferMoves(c, o, reserved, inUse, answers, [], r);
    assert [] + ms == ms;
    forall m | m in ms ensures Rank(m.kind) < 4 {}
    AtMostFour(ms, 4);
    var before := ApplyOverrides(c, o).value;
    if r.Free? {
      forall kind ensures MovesKind(ms, kind) <==> Range(before, kind).Some? && Busy(Range(before, kind).value, inUse) {
        if !MovesKind(ms, kind) { assert Range(FinalConfig(c, r), kind) == Range(before, kind); }
      }
    }
  }

  // ---- The dialogue as it runs ----

  /** The override object that the dialogue writes its choices into. */
  class OverrideStore {
    var overrides: Overrides

    method AskForPort(span: Span, spans: seq<Span>, reserved: set<int>, inUse: int -> bool, answers: seq<Answer>)
      returns (chosen: Option<int>, rest: seq<Answer>)
      ensures (chosen, rest) == Prompt(span, spans, reserved, inUse, answers)
    {
      var n := 0;
      while n < |answers|
        invariant 0 <= n <= |answers|
        invariant Prompt(span, spans, reserved, inUse, answers) == Prompt(span, spans, reserved, inUse, answers[n..])
      {
        assert answers[n..][0] == answers[n] && answers[n..][1..] == answers[n + 1..];
        match answers[n] {
          case Abort => return None, answers[n + 1..];
          case Auto =>
            var p := AutoPort(span, spans, reserved, inUse);
            AutoChoiceUnique(p, AutoChoice(span, spans, reserved, inUse), span, spans, reserved, inUse);
            if p.Some? { return p, answers[n + 1..]; }
          case Port(p) =>
            if Acceptable(p, span.width, spans, span.kind, reserved, inUse) { return Some(p), answers[n + 1..]; }
          case Unclear =>
        }
        n := n + 1;
      }
      return None, [];
    }

    /** offer_engine_port_remap; nothing is returned when applying the overrides raises. */
    method OfferRemap(c: EngineConfig, reserved: set<int>, inUse: int -> bool, answers: seq<Answer>)
      returns (free: Option<bool>, ghost moves: seq<Span>)
      modifies this
      ensures Offer(c, old(overrides), reserved, inUse, answers, []) ==
              match free
              case None => Raised
              case Some(true) => Free(overrides, moves)
              case Some(false) => Aborted(overrides, moves)
      ensures free == Some(true) ==>
                ApplyOverrides(c, overrides).Some? &&
                forall x :: x in ListenPorts(ApplyOverrides(c, overrides).value) ==> !inUse(x.1)
    {
      FreeMeansFree(c, overrides, reserved, inUse, answers, []);
      moves := [];
      var left := answers;
      while true
        invariant Offer(c, old(overrides), reserved, inUse, answers, []) ==
                  Offer(c, overrides, reserved, inUse, left, moves)
        decreases |left|
      {
        var config := ApplyOverrides(c, overrides);
        if config.None? { return None, moves; }
        var ports := CollectListenPorts(config.value);
        var spans := Spans(ports);
        var busy := FirstBusy(spans, inUse);
        if busy.None? { return Some(true), moves; }
        var chosen, rest := AskForPort(busy.value, spans, reserved, inUse, left);
        if chosen.None? { return Some(false), moves; }
        overrides := Store(overrides, busy.value.kind, chosen.value);
        moves := moves + [Span(busy.value.kind, chosen.value, busy.value.width)];
        left := rest;
      }
    }
  }

  // ---- Every configuration ----

  /** When nothing is busy the dialogue ends at once and moves nothing, so that ranges that overlap at the
      start still do at the end. */
  lemma IdleDialogue(c: EngineConfig, o: Overrides, reserved: set<int>, inUse: int -> bool, answers: seq<Answer>)
    requires ApplyOverrides(c, o).Some?
    requires forall x :: x in Spans(ListenPorts(ApplyOverrides(c, o).value)) ==> !Busy(x, inUse)
    ensures Offer(c, o, reserved, inUse, answers, []) == Free(o, [])
    ensures FinalConfig(c, Offer(c, o, reserved, inUse, answers, [])) == ApplyOverrides(c, o).value
  {
    FirstBusyFinds(Spans(ListenPorts(ApplyOverrides(c, o).value)), inUse);
  }

  /** A block that is free, unreserved, and shares no port with what the other kinds listen on. */
  ghost predicate Clear(m: Span, config: EngineConfig, reserved: set<int>, inUse: int -> bool) {
    && !Busy(m, inUse) && Avoids(m, reserved)
    && forall x :: x in ListenPorts(config) && KindOf(x.0) != m.kind ==> !Covers(m, x.1)
  }

  lemma AcceptedIsClear(config: EngineConfig, s: Span, p: int, reserved: set<int>, inUse: int -> bool)
    requires Acceptable(p, s.width, Spans(ListenPorts(config)), s.kind, reserved, inUse)
    ensures Clear(Span(s.kind, p, s.width), config, reserved, inUse)
  {
    var m, spans := Span(s.kind, p, s.width), Spans(ListenPorts(config));
    forall q | Covers(m, q) ensures q !in reserved && !inUse(q) {
      assert !Blocked(spans, s.kind, reserved, q);
    }
    forall x | x in ListenPorts(config) && KindOf(x.0) != m.kind ensures !Covers(m, x.1) {
      EveryPortCovered(config, x);
      var t :| t in spans && t.kind == KindOf(x.0) && Covers(t, x.1);
      if Covers(m, x.1) { assert Blocked(spans, s.kind, reserved, x.1); }
    }
  }

  /** The overrides after a series of moves. */
  ghost function StoreAll(o: Overrides, ms: seq<Span>): Overrides {
    if ms == [] then o else
      var n := |ms| - 1;
      Store(StoreAll(o, ms[..n]), ms[n].kind, ms[n].anchor)
  }

  /** Each move goes to a clear block of the configuration that the moves before it left. */
  ghost predicate AllClear(c: EngineConfig, o: Overrides, ms: seq<Span>, reserved: set<int>, inUse: int -> bool) {
    forall i :: 0 <= i < |ms| ==> ClearAt(c, StoreAll(o, ms[..i]), ms[i], reserved, inUse)
  }

  ghost predicate ClearAt(c: EngineConfig, o: Overrides, m: Span, reserved: set<int>, inUse: int -> bool) {
    ApplyOverrides(c, o).Some? && Clear(m, ApplyOverrides(c, o).value, reserved, inUse)
  }

  lemma OneMoreClear(c: EngineConfig, o: Overrides, ms: seq<Span>, m: Span, reserved: set<int>, inUse: int -> bool)
    requires AllClear(c, o, ms, reserved, inUse) && ClearAt(c, StoreAll(o, ms), m, reserved, inUse)
    ensures AllClear(c, o, ms + [m], reserved, inUse)
    ensures StoreAll(o, ms + [m]) == Store(StoreAll(o, ms), m.kind, m.anchor)
  {
    var all := ms + [m];
    assert all[..|ms|] == ms;
    forall i | 0 <= i < |all| ensures ClearAt(c, StoreAll(o, all[..i]), all[i], reserved, inUse) {
      if i < |ms| { assert all[..i] == ms[..i]; }
    }
  }

  /** For every configuration, overlapping or out of range: each move goes to a block that is free,
      unreserved and clear of the ports that the other kinds listen on at that moment. */
  lemma {:induction false} MovesAreClear(c: EngineConfig, o: Overrides, reserved: set<int>, inUse: int -> bool,
                                         answers: seq<Answer>, moves: seq<Span>)
    requires AllClear(c, o, moves, reserved, inUse)
    ensures
      var r := Offer(c, StoreAll(o, moves), reserved, inUse, answers, moves);
      !r.Raised? ==> AllClear(c, o, r.moves, reserved, inUse) && r.overrides == StoreAll(o, r.moves)
    decreases |answers|
  {
    var now := StoreAll(o, moves);
    if ApplyOverrides(c, now).Some? {
      OfferFollowsNext(c, now, reserved, inUse, answers, moves);
      var n := NextMove(c, now, reserved, inUse, answers);
      if n.Accepts? {
        var m := Span(n.span.kind, n.port, n.span.width);
        AcceptedIsClear(ApplyOverrides(c, now).value, n.span, n.port, reserved, inUse);
        OneMoreClear(c, o, moves, m, reserved, inUse);
        MovesAreClear(c, o, reserved, inUse, n.rest, moves + [m]);
      }
    }
  }

  /** The whole dialogue. */
  lemma DialogueMovesClear(c: EngineConfig, o: Overrides, reserved: set<int>, inUse: int -> bool, answers: seq<Answer>)
    ensures
      var r := Offer(c, o, reserved, inUse, answers, []);
      !r.Raised? ==> AllClear(c, o, r.moves, reserved, inUse) && r.overrides == StoreAll(o, r.moves)
  {
    MovesAreClear(c, o, reserved, inUse, answers, []);
  }
}

/** What a relay prints about itself (cmd/shrooms-relay/main.go, report and deltas): one
    line a window, quiet windows skipped, over any sequence of counters. */
module RelayReport {
  import opened Options

  const U64: nat := 0x1_0000_0000_0000_0000
  const Heartbeat: int := 3600

  /** relay.Stat, as far as the report looks: the counters are uint64. */
  datatype Stat = Stat(peers: int, bytes: nat, forwarded: nat, refused: nat, dropped: nat,
                       throttled: nat, challenged: nat, confirmed: nat)

  datatype Tick = Tick(now: int, stat: Stat)

  /** The second line's figures, 0 for one left out. */
  datatype Notes = Notes(refused: nat, dropped: nat, throttled: nat, unanswered: nat)

  datatype Line = Line(at: int, window: int, carried: nat, packets: nat, total: nat, notes: Notes)

  /** uint64 subtraction. */
  function Minus(b: nat, a: nat): nat {
    (b - a) % U64
  }

  /** deltas. */
  function Deltas(a: Stat, b: Stat): Notes {
    var unanswered := Minus(Minus(b.challenged, a.challenged), Minus(b.confirmed, a.confirmed));
    Notes(Minus(b.refused, a.refused), Minus(b.dropped, a.dropped), Minus(b.throttled, a.throttled),
          if unanswered > 0 && b.challenged > a.challenged then unanswered else 0)
  }

  predicate Quiet(a: Stat, b: Stat) {
    && Minus(b.forwarded, a.forwarded) == 0 && b.peers == a.peers
    && b.refused == a.refused && b.dropped == a.dropped && b.throttled == a.throttled
  }

  /** What the loop carries: the last counters and when, and when it last spoke. */
  datatype State = State(prev: Stat, prevAt: int, said: Option<int>)

  predicate Silent(s: State, t: Tick) {
    Quiet(s.prev, t.stat) && s.said.Some? && t.now - s.said.value < Heartbeat
  }

  function Says(s: State, t: Tick): seq<Line> {
    if Silent(s, t) then []
    else [Line(t.now, t.now - s.prevAt, Minus(t.stat.bytes, s.prev.bytes),
               Minus(t.stat.forwarded, s.prev.forwarded), t.stat.bytes, Deltas(s.prev, t.stat))]
  }

  function Next(s: State, t: Tick): State {
    State(t.stat, t.now, if Silent(s, t) then s.said else Some(t.now))
  }

  function Printed(s: State, ts: seq<Tick>): seq<Line>
    decreases |ts|
  {
    if ts == [] then [] else Says(s, ts[0]) + Printed(Next(s, ts[0]), ts[1..])
  }

  function End(s: State, ts: seq<Tick>): State
    decreases |ts|
  {
    if ts == [] then s else End(Next(s, ts[0]), ts[1..])
  }

  /** report: the loop, over the ticks that come before it is stopped. */
  method Report(first: Stat, started: int, ts: seq<Tick>) returns (lines: seq<Line>)
    ensures lines == Printed(State(first, started, None), ts)
  {
    hide Minus, Deltas, Printed;
    lines := [];
    var prev, prevAt := first, started;
    var lastSaid: Option<int> := None;
    var i := 0;
    while i < |ts|
      invariant 0 <= i <= |ts|
      invariant Printed(State(first, started, None), ts) == lines + Printed(State(prev, prevAt, lastSaid), ts[i..])
    {
      ghost var s := State(prev, prevAt, lastSaid);
      var now, stat := ts[i].now, ts[i].stat;
      PrintsNext(s, ts, i);
      var packets := Minus(stat.forwarded, prev.forwarded);
      var quiet := packets == 0 && stat.peers == prev.peers && stat.refused == prev.refused
                   && stat.dropped == prev.dropped && stat.throttled == prev.throttled;
      if !(quiet && lastSaid.Some? && now - lastSaid.value < Heartbeat) {
        lastSaid := Some(now);
        lines := lines + [Line(now, now - prevAt, Minus(stat.bytes, prev.bytes), packets, stat.bytes, Deltas(prev, stat))];
      }
      prev, prevAt := stat, now;
      i := i + 1;
    }
    PrintsNoMore(State(prev, prevAt, lastSaid), ts[i..]);
  }

  lemma PrintsNext(s: State, ts: seq<Tick>, i: nat)
    requires i < |ts|
    ensures Printed(s, ts[i..]) == Says(s, ts[i]) + Printed(Next(s, ts[i]), ts[i + 1..])
  {
    assert ts[i..][1..] == ts[i + 1..];
  }

  lemma PrintsNoMore(s: State, ts: seq<Tick>)
    requires |ts| == 0
    ensures Printed(s, ts) == []
  {
  }

  // ---------------------------------------------------------------- conservation

  predicate Grows(a: Stat, b: Stat) {
    && a.bytes <= b.bytes < U64 && a.forwarded <= b.forwarded < U64 && a.refused <= b.refused < U64
    && a.dropped <= b.dropped < U64 && a.throttled <= b.throttled < U64
    && a.challenged <= b.challenged < U64 && a.confirmed <= b.confirmed < U64
  }

  predicate Growing(a: Stat, ts: seq<Tick>)
    decreases |ts|
  {
    ts == [] || (Grows(a, ts[0].stat) && Growing(ts[0].stat, ts[1..]))
  }

  function Carried(ls: seq<Line>): nat {
    if ls == [] then 0 else ls[0].carried + Carried(ls[1..])
  }

  function Packets(ls: seq<Line>): nat {
    if ls == [] then 0 else ls[0].packets + Packets(ls[1..])
  }

  function Refused(ls: seq<Line>): nat {
    if ls == [] then 0 else ls[0].notes.refused + Refused(ls[1..])
  }

  function Dropped(ls: seq<Line>): nat {
    if ls == [] then 0 else ls[0].notes.dropped + Dropped(ls[1..])
  }

  function Throttled(ls: seq<Line>): nat {
    if ls == [] then 0 else ls[0].notes.throttled + Throttled(ls[1..])
  }

  /** The bytes that went by in windows nothing was printed for. */
  function Unreported(s: State, ts: seq<Tick>): nat
    requires Growing(s.prev, ts)
    decreases |ts|
  {
    if ts == [] then 0
    else (if Silent(s, ts[0]) then ts[0].stat.bytes - s.prev.bytes else 0) + Unreported(Next(s, ts[0]), ts[1..])
  }

  lemma MinusIs(a: nat, b: nat)
    requires a <= b < U64
    ensures Minus(b, a) == b - a
  {
  }

  lemma {:induction false} Adds(s: State, ts: seq<Tick>)
    requires Growing(s.prev, ts)
    ensures var ls, t := Printed(s, ts), End(s, ts).prev;
            && Carried(ls) + Unreported(s, ts) == t.bytes - s.prev.bytes
            && Packets(ls) == t.forwarded - s.prev.forwarded && Refused(ls) == t.refused - s.prev.refused
            && Dropped(ls) == t.dropped - s.prev.dropped && Throttled(ls) == t.throttled - s.prev.throttled
    decreases |ts|
  {
    if ts == [] {
    } else {
      var t := Next(s, ts[0]);
      OneWindow(s, ts[0]);
      Adds(t, ts[1..]);
      hide Minus, Says, Silent, Deltas, Next;
      FirstThen(Says(s, ts[0]), Printed(t, ts[1..]));
    }
  }

  /** One window's line, or what its silence says. */
  lemma OneWindow(s: State, t: Tick)
    requires Grows(s.prev, t.stat)
    ensures var a, b := s.prev, t.stat;
            var ls := Says(s, t);
            && |ls| <= 1
            && (ls == [] <==> Silent(s, t))
            && (ls == [] ==> b.forwarded == a.forwarded && b.refused == a.refused && b.dropped == a.dropped && b.throttled == a.throttled)
            && (ls != [] ==>
                  && ls[0].carried == b.bytes - a.bytes && ls[0].packets == b.forwarded - a.forwarded
                  && ls[0].notes.refused == b.refused - a.refused && ls[0].notes.dropped == b.dropped - a.dropped
                  && ls[0].notes.throttled == b.throttled - a.throttled)
    ensures Next(s, t).prev == t.stat
  {
    var a, b := s.prev, t.stat;
    MinusIs(a.bytes, b.bytes);
    MinusIs(a.forwarded, b.forwarded);
    MinusIs(a.refused, b.refused);
    MinusIs(a.dropped, b.dropped);
    MinusIs(a.throttled, b.throttled);
    hide Minus;
  }

  lemma FirstThen(ls: seq<Line>, rest: seq<Line>)
    requires |ls| <= 1
    ensures Carried(ls + rest) == (if ls == [] then 0 else ls[0].carried) + Carried(rest)
    ensures Packets(ls + rest) == (if ls == [] then 0 else ls[0].packets) + Packets(rest)
    ensures Refused(ls + rest) == (if ls == [] then 0 else ls[0].notes.refused) + Refused(rest)
    ensures Dropped(ls + rest) == (if ls == [] then 0 else ls[0].notes.dropped) + Dropped(rest)
    ensures Throttled(ls + rest) == (if ls == [] then 0 else ls[0].notes.throttled) + Throttled(rest)
  {
    if ls == [] {
      assert ls + rest == rest;
    } else {
      assert (ls + rest)[1..] == rest;
    }
  }

  /** Over all windows, printed or not, the packets and the troubles printed are exactly
      what the counters grew by at every moment, and the bytes are exactly when none
      went by in a window that was skipped. */
  lemma ReportsAddUp(first: Stat, started: int, ts: seq<Tick>)
    requires Growing(first, ts)
    ensures var s := State(first, started, None);
            var ls, t := Printed(s, ts), End(s, ts).prev;
            && Packets(ls) == t.forwarded - first.forwarded && Refused(ls) == t.refused - first.refused
            && Dropped(ls) == t.dropped - first.dropped && Throttled(ls) == t.throttled - first.throttled
            && (Carried(ls) == t.bytes - first.bytes <==> Unreported(s, ts) == 0)
  {
    Adds(State(first, started, None), ts);
  }

  /** A relay counts bytes only with packets, and then nothing goes unreported. */
  lemma {:induction false} BytesWithPackets(s: State, ts: seq<Tick>)
    requires Growing(s.prev, ts) && Paced(s.prev, ts)
    ensures Unreported(s, ts) == 0
    decreases |ts|
  {
    if ts == [] {
    } else {
      MinusIs(s.prev.forwarded, ts[0].stat.forwarded);
      BytesWithPackets(Next(s, ts[0]), ts[1..]);
    }
  }

  predicate Paced(a: Stat, ts: seq<Tick>)
    decreases |ts|
  {
    ts == [] || ((ts[0].stat.forwarded == a.forwarded ==> ts[0].stat.bytes == a.bytes) && Paced(ts[0].stat, ts[1..]))
  }

  // ---------------------------------------------------------------- silence

  predicate InOrder(at: int, ts: seq<Tick>)
    decreases |ts|
  {
    ts == [] || (at <= ts[0].now && InOrder(ts[0].now, ts[1..]))
  }

  /** At every tick there is a line less than an hour old, that tick's own counted. */
  lemma {:induction false} NeverSilentAnHour(s: State, ts: seq<Tick>)
    requires ts != [] && InOrder(s.prevAt, ts) && (s.said.Some? ==> s.said.value <= s.prevAt)
    ensures End(s, ts).prevAt == ts[|ts| - 1].now
    ensures End(s, ts).said.Some? && 0 <= ts[|ts| - 1].now - End(s, ts).said.value < Heartbeat
    ensures (exists l :: l in Printed(s, ts) && l.at == End(s, ts).said.value) || End(s, ts).said == s.said
    decreases |ts|
  {
    var t := Next(s, ts[0]);
    assert Printed(s, ts) == Says(s, ts[0]) + Printed(t, ts[1..]);
    if |ts| > 1 {
      NeverSilentAnHour(t, ts[1..]);
      assert ts[1..][|ts[1..]| - 1] == ts[|ts| - 1];
      assert End(s, ts) == End(t, ts[1..]);
      if l :| l in Printed(t, ts[1..]) && l.at == End(t, ts[1..]).said.value {
        assert l in Printed(s, ts);
      } else if !Silent(s, ts[0]) {
        assert Says(s, ts[0])[0] in Printed(s, ts);
      }
    } else {
      assert End(s, ts) == t;
      if !Silent(s, ts[0]) {
        assert Says(s, ts[0])[0] in Printed(s, ts);
      }
    }
  }

  // ---------------------------------------------------------------- when it speaks

  /** Exactly when a tick prints nothing: no packet, no trouble and nobody come or gone since
      the tick before, and a line less than an hour ago. */
  lemma SilentExact(s: State, t: Tick)
    requires Grows(s.prev, t.stat)
    ensures Says(s, t) == [] <==>
              && t.stat.forwarded == s.prev.forwarded && t.stat.peers == s.prev.peers && t.stat.refused == s.prev.refused
              && t.stat.dropped == s.prev.dropped && t.stat.throttled == s.prev.throttled
              && s.said.Some? && t.now < s.said.value + 3600
  {
    MinusIs(s.prev.forwarded, t.stat.forwarded);
    hide Minus, Deltas;
  }

  /** The tick before the k-th, or where the loop began. */
  function Before(s: State, ts: seq<Tick>, k: nat): int
    requires k < |ts|
  {
    if k == 0 then s.prevAt else ts[k - 1].now
  }

  /** A line is a tick's: its time, the counter's total as it then was, and the window from
      the tick before, printed or not. */
  ghost predicate LineOf(s: State, ts: seq<Tick>, l: Line, k: nat) {
    k < |ts| && l.at == ts[k].now && l.total == ts[k].stat.bytes && l.window == ts[k].now - Before(s, ts, k)
  }

  lemma {:induction false} LinesAreTicks(s: State, ts: seq<Tick>)
    ensures forall l :: l in Printed(s, ts) ==> exists k: nat :: LineOf(s, ts, l, k)
    decreases |ts|
  {
    if ts == [] {
    } else {
      var t := Next(s, ts[0]);
      var rest := Printed(t, ts[1..]);
      LinesAreTicks(t, ts[1..]);
      forall l | l in Printed(s, ts)
        ensures exists k: nat :: LineOf(s, ts, l, k)
      {
        if l in rest {
          var k: nat :| LineOf(t, ts[1..], l, k);
          assert ts[1..][k] == ts[k + 1];
          assert LineOf(s, ts, l, k + 1);
        } else {
          assert l in Says(s, ts[0]);
          assert LineOf(s, ts, l, 0);
        }
      }
    }
  }

  predicate Unchanging(s: State, ts: seq<Tick>) {
    forall k :: 0 <= k < |ts| ==> ts[k].stat == s.prev
  }

  predicate HourApart(ls: seq<Line>) {
    forall i, j :: 0 <= i < j < |ls| ==> ls[j].at >= ls[i].at + 3600
  }

  /** A relay with nothing to report speaks at most once an hour. */
  lemma {:induction false} IdleIsHourly(s: State, ts: seq<Tick>)
    requires Unchanging(s, ts)
    ensures HourApart(Printed(s, ts))
    ensures s.said.Some? ==> forall l :: l in Printed(s, ts) ==> l.at >= s.said.value + 3600
    decreases |ts|
  {
    if ts == [] {
    } else {
      var t := Next(s, ts[0]);
      var rest := Printed(t, ts[1..]);
      assert Unchanging(t, ts[1..]) by {
        assert forall k :: 0 <= k < |ts[1..]| ==> ts[1..][k] == ts[k + 1];
      }
      NothingNew(s, ts[0]);
      IdleIsHourly(t, ts[1..]);
      hide Minus, Deltas, Quiet;
      assert Printed(s, ts) == Says(s, ts[0]) + rest;
      if !Silent(s, ts[0]) {
        assert s.said.Some? ==> ts[0].now >= s.said.value + 3600;
        assert forall l :: l in rest ==> l.at >= ts[0].now + 3600;
        assert forall i :: 0 <= i < |rest| ==> rest[i] in rest;
      }
    }
  }

  lemma NothingNew(s: State, t: Tick)
    requires t.stat == s.prev
    ensures Quiet(s.prev, t.stat)
  {
  }

  // ---------------------------------------------------------------- challenges

  /** Exactly when the unanswered figure is the window's challenges less its answers: when
      no challenge was issued, or not more were answered than issued. Answers to an
      earlier window's challenges can make it otherwise. */
  lemma UnansweredExact(a: Stat, b: Stat)
    requires Grows(a, b)
    ensures var issued, answered := b.challenged - a.challenged, b.confirmed - a.confirmed;
            Deltas(a, b).unanswered == (if answered < issued then issued - answered else 0) <==> issued == 0 || answered <= issued
  {
    MinusIs(a.challenged, b.challenged);
    MinusIs(a.confirmed, b.confirmed);
    var issued, answered := b.challenged - a.challenged, b.confirmed - a.confirmed;
    if answered > issued {
      Wraps(issued, answered);
    } else {
      MinusIs(answered, issued);
    }
  }

  lemma Wraps(issued: nat, answered: nat)
    requires issued < answered < U64
    ensures Minus(issued, answered) == U64 + issued - answered
  {
  }

  /** One challenge answered a window late, beside one answered in time. */
  lemma LateAnswerWraps(a: Stat, b: Stat)
    requires Grows(a, b) && b.challenged == a.challenged + 1 && b.confirmed == a.confirmed + 2
    ensures Deltas(a, b).unanswered == 18446744073709551615
  {
    MinusIs(a.challenged, b.challenged);
    MinusIs(a.confirmed, b.confirmed);
    Wraps(1, 2);
  }
}

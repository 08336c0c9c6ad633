/** Keeping a port mapping on the router (cmd/shrooms/portmap.go), while the network
    watchdog moves ports and nudges (cmd/shrooms/instance.go, cmd/shrooms/daemon.go). */
module Portmap {
  import opened Options

  const U16: nat := 0x1_0000

  // ---------------------------------------------------------------- addresses

  /** netip.Addr. The port mapping client unmaps, so no IPv4 address arrives in IPv6 form. */
  datatype Addr = Invalid | V4(bits: nat) | V6(high: nat, low: nat)

  datatype Endpoint = Endpoint(addr: Addr, port: nat)

  /** a lies in the block of `size` addresses numbered `prefix`. */
  predicate In4(a: nat, prefix: nat, size: nat)
    requires size > 0
  {
    a / size == prefix
  }

  predicate Usable(a: Addr) {
    match a
    case Invalid => false
    case V4(b) =>
      && b != 0                                          // unspecified
      && !In4(b, 127, 0x100_0000)                        // loopback
      && !In4(b, 10, 0x100_0000) && !In4(b, 0xAC1, 0x10_0000) && !In4(b, 0xC0A8, 0x1_0000)
      && !In4(b, 0xA9FE, 0x1_0000)                       // link local
      && !In4(b, 0xE, 0x1000_0000)                       // multicast
      && !In4(b, 0x191, 0x40_0000)                       // 100.64.0.0/10
    case V6(high, low) =>
      && !(high == 0 && low <= 1)                        // unspecified, loopback
      && !In4(high, 0x7E, 0x200_0000_0000_0000)          // fc00::/7
      && !In4(high, 0x3FA, 0x40_0000_0000_0000)          // fe80::/10
      && !In4(high, 0xFF, 0x100_0000_0000_0000)          // multicast
  }

  /** An IPv4 address passes exactly when it is none of these, byte by byte: unspecified,
      private, loopback, link-local, a carrier's shared space, multicast. */
  lemma InsideExact(a: nat, b: nat, c: nat, d: nat)
    requires a < 256 && b < 256 && c < 256 && d < 256
    ensures Usable(V4(((a * 256 + b) * 256 + c) * 256 + d)) <==>
              && !(a == 0 && b == 0 && c == 0 && d == 0)
              && a != 10 && a != 127 && !(a == 172 && 16 <= b < 32) && !(a == 192 && b == 168)
              && !(a == 169 && b == 254) && !(224 <= a < 240) && !(a == 100 && 64 <= b < 128)
  {
    var n := ((a * 256 + b) * 256 + c) * 256 + d;
    assert n / 0x100_0000 == a;
    assert n / 0x1_0000 == a * 256 + b;
    assert n / 0x10_0000 == a * 16 + b / 16;
    assert n / 0x40_0000 == a * 4 + b / 64;
    assert n / 0x1000_0000 == a / 16;
  }

  /** An IPv6 address, by its first sixteen bits: unspecified, loopback, unique local,
      link-local and multicast ones do not pass. */
  lemma InsideExact6(first: nat, rest: nat, low: nat)
    requires first < U16 && rest < 0x1_0000_0000_0000
    ensures Usable(V6(first * 0x1_0000_0000_0000 + rest, low)) <==>
              && !(first == 0 && rest == 0 && low <= 1)
              && !(0xFC00 <= first < 0xFE00) && !(0xFE80 <= first < 0xFEC0) && first < 0xFF00
  {
    var high := first * 0x1_0000_0000_0000 + rest;
    assert high / 0x200_0000_0000_0000 == first / 0x200;
    assert high / 0x40_0000_0000_0000 == first / 0x40;
    assert high / 0x100_0000_0000_0000 == first / 0x100;
  }

  // ---------------------------------------------------------------- the port after contention

  /** want + 1 in 16 bits, and back to just past the listen port where it wraps. */
  function NextPort(port: nat, want: nat): nat {
    var next := (want + 1) % U16;
    if next < port || next == 0 then (port + 1) % U16 else next
  }

  /** MapTo's own default: no port asked for is the listen port. */
  function AskedFor(port: nat, want: nat): nat {
    if want == 0 then port else want
  }

  /** What the router is asked for is never below the listen port, and is another port
      than the contested one unless the range above the listen port is used up. */
  lemma AsksAnother(port: nat, want: nat)
    requires 0 < port < U16 && want < U16
    ensures port <= AskedFor(port, NextPort(port, want)) < U16
    ensures AskedFor(port, NextPort(port, want)) != want <==> !(want == U16 - 1 && port >= U16 - 2)
    ensures NextPort(port, want) == 0 <==> port == U16 - 1 && want != U16 - 2
  {
  }

  /** The k-th port asked for while each one granted turns out contested. */
  function Asks(port: nat, k: nat): nat {
    if k == 0 then port else NextPort(port, Asks(port, k - 1))
  }

  /** Which of the ports above the listen port the k-th ask falls on. */
  function Slot(port: nat, k: nat): (x: nat)
    requires port < U16 - 1 && k > 0
    ensures x < U16 - 1 - port
  {
    (k - 1) % (U16 - 1 - port)
  }

  /** The closed form: port + 1 up to 65535, around and around. */
  lemma {:induction false} AsksAre(port: nat, k: nat)
    requires 0 < port < U16 - 1 && k > 0
    ensures Asks(port, k) == port + 1 + Slot(port, k)
  {
    SlotFirst(port);
    if k == 1 {
    } else {
      SlotNext(port, k);
      hide Slot;
      AsksAre(port, k - 1);
      NextInRange(port, Slot(port, k - 1));
    }
  }

  lemma SlotFirst(port: nat)
    requires port < U16 - 1
    ensures Slot(port, 1) == 0
  {
  }

  lemma SlotNext(port: nat, k: nat)
    requires port < U16 - 1 && k > 1
    ensures Slot(port, k) == if Slot(port, k - 1) == U16 - 2 - port then 0 else Slot(port, k - 1) + 1
  {
    ModNext(k - 2, U16 - 1 - port);
  }

  lemma NextInRange(port: nat, x: nat)
    requires 0 < port < U16 - 1 && x < U16 - 1 - port
    ensures NextPort(port, port + 1 + x) == port + 1 + (if x == U16 - 2 - port then 0 else x + 1)
  {
  }

  lemma ModNext(n: nat, d: nat)
    requires d > 0
    ensures (n + 1) % d == if n % d == d - 1 then 0 else n % d + 1
  {
    var q, r := n / d, n % d;
    assert n == q * d + r;
    if r == d - 1 {
      assert n + 1 == (q + 1) * d;
      ModUnique(n + 1, d, q + 1, 0);
    } else {
      ModUnique(n + 1, d, q, r + 1);
    }
  }

  lemma ModUnique(n: nat, d: nat, q: nat, r: nat)
    requires d > 0 && n == q * d + r && r < d
    ensures n % d == r
  {
    var p, t := n / d, n % d;
    assert n == p * d + t && 0 <= t < d;
    OneQuotient(p, t, q, r, d);
  }

  lemma OneQuotient(p: nat, t: nat, q: nat, r: nat, d: nat)
    requires p * d + t == q * d + r && t < d && r < d
    ensures p == q && t == r
  {
    if p < q {
      MulLe(p + 1, q, d);
    } else if q < p {
      MulLe(q + 1, p, d);
    }
  }

  lemma MulLe(a: nat, b: nat, d: nat)
    requires a <= b
    ensures a * d <= b * d
  {
    assert b * d == a * d + (b - a) * d;
  }

  /** How many asks come before this round of all the ports. */
  function RoundStart(port: nat, round: nat): nat
    requires port < U16
  {
    var span: nat := U16 - 1 - port;
    round * span
  }

  predicate RoundHas(port: nat, round: nat, k: nat)
    requires port < U16
  {
    RoundStart(port, round) < k <= RoundStart(port, round) + (U16 - 1 - port)
  }

  lemma InRound(port: nat, round: nat, k: nat)
    requires 0 < port < U16 - 1 && RoundHas(port, round, k)
    ensures Asks(port, k) == port + (k - RoundStart(port, round))
  {
    AsksAre(port, k);
    hide Asks;
    ModUnique(k - 1, U16 - 1 - port, round, k - 1 - RoundStart(port, round));
  }

  /** Every port above the listen port is asked for once in each round before any of
      them is asked for again. */
  lemma EveryPortOnce(port: nat, round: nat, p: nat)
    requires 0 < port < p < U16
    ensures exists k: nat :: RoundHas(port, round, k) && Asks(port, k) == p
    ensures forall i: nat, j: nat :: RoundHas(port, round, i) && RoundHas(port, round, j) && Asks(port, i) == Asks(port, j) ==> i == j
  {
    hide Asks, RoundStart;
    forall k: nat | RoundHas(port, round, k)
      ensures Asks(port, k) == port + (k - RoundStart(port, round))
    {
      InRound(port, round, k);
    }
    assert RoundHas(port, round, RoundStart(port, round) + (p - port));
  }

  // ---------------------------------------------------------------- renewal

  const Minute := 60
  const MapRetry := 30 * Minute

  datatype Answer = Refused | Granted(external: Endpoint, lifetime: nat)

  /** In seconds. A router grants whole ones, whose half is exact in nanoseconds. */
  function WaitFor(a: Answer): real {
    match a
    case Refused => MapRetry as real
    case Granted(_, lifetime) => if lifetime as real / 2.0 > Minute as real then lifetime as real / 2.0 else Minute as real
  }

  /** A mapping is asked for again before its lifetime is over exactly when that is more than
      a minute, and at half of it exactly when it is two or more; a refusal after half an
      hour. */
  lemma RenewedInTime(external: Endpoint, lifetime: nat)
    ensures WaitFor(Granted(external, lifetime)) < lifetime as real <==> lifetime > 60
    ensures WaitFor(Granted(external, lifetime)) == lifetime as real / 2.0 <==> lifetime >= 120
    ensures WaitFor(Granted(external, lifetime)) >= 60.0 && WaitFor(Refused) == 1800.0
  {
  }

  // ---------------------------------------------------------------- mapper, watchdog and router

  /** One request to the router: for which listen port, after how many nudges and how
      many detected network changes. */
  datatype Request = Request(port: nat, want: nat, nudges: nat, changes: nat)

  datatype Shown = Shown(external: Endpoint, request: Request)

  /** Where keepMapped stands: at the top of its loop, past the read of the port, past
      the contention check, waiting for the router, in the select, or past the clear
      that follows a nudge. */
  datatype Pc = Top | Read | Checked | Asking(request: Request) | Selecting | Cleared

  /** The watchdog: idle, or past seeing a change, or past moving the ports. */
  datatype Dog = Idle | Saw | Moved

  /** `listen` is in.port, `full` the one-slot in.remap, `shown` the mesh's mapping with
      the request it answers. The counts are of nudges sent, changes detected and
      nudges sent when the channel was last drained. */
  datatype State = State(listen: nat, full: bool, shown: Option<Shown>,
                         pc: Pc, port: nat, want: nat,
                         dog: Dog, nudges: nat, changes: nat, drained: nat)

  datatype Event =
    | Detect | Move(to: Option<nat>) | Nudge
    | ReadPort | Check(contested: bool) | Ask | Answered(answer: Answer)
    | Timer | TakeNudge | Reread

  function Start(listen: nat): State {
    State(listen, false, None, Top, listen, listen, Idle, 0, 0, 0)
  }

  predicate Enabled(s: State, e: Event) {
    match e
    case Detect => s.dog.Idle?
    case Move(_) => s.dog.Saw?
    case Nudge => s.dog.Moved?
    case ReadPort => s.pc.Top?
    case Check(contested) => s.pc.Read? && (contested ==> s.shown.Some?)
    case Ask => s.pc.Checked?
    case Answered(_) => s.pc.Asking?
    case Timer => s.pc.Selecting?
    case TakeNudge => s.pc.Selecting? && s.full
    case Reread => s.pc.Cleared?
  }

  function AfterRead(listen: nat, port: nat, want: nat): (nat, nat) {
    if listen != port then (listen, listen) else (port, want)
  }

  function AfterCheck(port: nat, want: nat, contested: bool): nat {
    if contested then NextPort(port, want) else want
  }

  function AfterAnswer(want: nat, a: Answer): nat {
    if a.Granted? && Usable(a.external.addr) then a.external.port else want
  }

  function ShownAfter(r: Request, a: Answer): Option<Shown> {
    if a.Granted? && Usable(a.external.addr) then Some(Shown(a.external, r)) else None
  }

  function Step(s: State, e: Event): State
    requires Enabled(s, e)
  {
    match e
    case Detect => s.(dog := Saw, changes := s.changes + 1)
    case Move(to) => s.(dog := Moved, listen := if to.Some? then to.value else s.listen)
    case Nudge => s.(dog := Idle, full := true, nudges := s.nudges + 1)
    case ReadPort => var (port, want) := AfterRead(s.listen, s.port, s.want); s.(pc := Read, port := port, want := want)
    case Check(contested) => s.(pc := Checked, want := AfterCheck(s.port, s.want, contested))
    case Ask => s.(pc := Asking(Request(s.port, s.want, s.nudges, s.changes)))
    case Answered(a) => s.(pc := Selecting, want := AfterAnswer(s.want, a), shown := ShownAfter(s.pc.request, a))
    case Timer => s.(pc := Top)
    case TakeNudge => s.(pc := Cleared, full := false, shown := None, drained := s.nudges)
    case Reread => s.(pc := Top, port := s.listen, want := s.listen)
  }

  predicate Runs(s: State, es: seq<Event>)
    decreases |es|
  {
    es == [] || (Enabled(s, es[0]) && Runs(Step(s, es[0]), es[1..]))
  }

  function After(s: State, es: seq<Event>): State
    requires Runs(s, es)
    decreases |es|
  {
    if es == [] then s else After(Step(s, es[0]), es[1..])
  }

  lemma TwoSteps(s: State, a: Event, b: Event)
    requires Enabled(s, a) && Enabled(Step(s, a), b)
    ensures Runs(s, [a, b]) && After(s, [a, b]) == Step(Step(s, a), b)
  {
    hide Step, Enabled;
    assert [a, b][1..] == [b] && [b][1..] == [];
    assert Runs(Step(s, a), [b]);
    assert After(Step(s, a), [b]) == After(Step(Step(s, a), b), []);
  }

  lemma {:induction false} Joined(s: State, es: seq<Event>, fs: seq<Event>)
    requires Runs(s, es) && Runs(After(s, es), fs)
    ensures Runs(s, es + fs) && After(s, es + fs) == After(After(s, es), fs)
    decreases |es|
  {
    hide Step, Enabled;
    if es == [] {
      assert es + fs == fs;
    } else {
      Joined(Step(s, es[0]), es[1..], fs);
      assert (es + fs)[1..] == es[1..] + fs;
    }
  }

  lemma FourSteps(s: State, a: Event, b: Event, c: Event, d: Event)
    requires Enabled(s, a) && Enabled(Step(s, a), b) && Enabled(Step(Step(s, a), b), c)
    requires Enabled(Step(Step(Step(s, a), b), c), d)
    ensures Runs(s, [a, b, c, d]) && After(s, [a, b, c, d]) == Step(Step(Step(Step(s, a), b), c), d)
  {
    hide Step, Enabled, Runs, After;
    TwoSteps(s, a, b);
    TwoSteps(Step(Step(s, a), b), c, d);
    Joined(s, [a, b], [c, d]);
    assert [a, b] + [c, d] == [a, b, c, d];
  }

  // ---------------------------------------------------------------- what every step keeps

  predicate Fresh(s: State, r: Request) {
    s.drained <= r.nudges <= s.nudges && r.nudges <= r.changes <= s.changes
  }

  /** No nudge is on its way: none in the channel, and no move waiting to be nudged about. */
  predicate Quiet(s: State) {
    !s.full && !s.dog.Moved?
  }

  predicate Inv(s: State) {
    && s.changes == s.nudges + (if s.dog.Idle? then 0 else 1)
    && s.drained <= s.nudges && (s.full <==> s.drained < s.nudges)
    && (s.pc.Asking? ==> Fresh(s, s.pc.request))
    && (s.pc.Cleared? ==> s.shown.None?)
    && (s.shown.Some? ==> Fresh(s, s.shown.value.request) && Usable(s.shown.value.external.addr))
    && (Quiet(s) ==>
          && (!s.pc.Cleared? ==> s.port == s.listen)
          && (s.pc.Asking? ==> s.pc.request.port == s.listen)
          && (s.shown.Some? ==> s.shown.value.request.port == s.listen))
  }

  lemma StepKeeps(s: State, e: Event)
    requires Inv(s) && Enabled(s, e)
    ensures Inv(Step(s, e))
  {
    hide Usable, NextPort;
  }

  lemma {:induction false} RunKeeps(s: State, es: seq<Event>)
    requires Inv(s) && Runs(s, es)
    ensures Inv(After(s, es))
    decreases |es|
  {
    if es == [] {
    } else {
      StepKeeps(s, es[0]);
      RunKeeps(Step(s, es[0]), es[1..]);
    }
  }

  lemma {:induction false} RunGrows(s: State, es: seq<Event>)
    requires Inv(s) && Runs(s, es)
    ensures After(s, es).drained >= s.drained && After(s, es).nudges >= s.nudges
    decreases |es|
  {
    if es == [] {
    } else {
      StepKeeps(s, es[0]);
      RunGrows(Step(s, es[0]), es[1..]);
    }
  }

  predicate Takes(es: seq<Event>) {
    exists i :: 0 <= i < |es| && es[i] == TakeNudge
  }

  /** No nudge is lost: once sent it can be taken until it is, whatever else happens. */
  lemma {:induction false} NudgeWaits(s: State, es: seq<Event>)
    requires s.full && Runs(s, es) && !Takes(es)
    ensures After(s, es).full
    decreases |es|
  {
    if es == [] {
    } else {
      assert es[0] != TakeNudge;
      forall i | 0 <= i < |es[1..]|
        ensures es[1..][i] != TakeNudge
      {
        assert es[1..][i] == es[i + 1];
      }
      NudgeWaits(Step(s, es[0]), es[1..]);
    }
  }

  /** Once a nudge is taken, no mapping asked for before it, or before any nudge sent
      by then, is ever announced again, and all that is announced can be dialled. */
  lemma NothingStale(listen: nat, before: seq<Event>, after: seq<Event>)
    requires Runs(Start(listen), before) && Enabled(After(Start(listen), before), TakeNudge)
    requires var s := Step(After(Start(listen), before), TakeNudge); Runs(s, after)
    ensures var s := Step(After(Start(listen), before), TakeNudge);
            && s.shown.None?
            && var t := After(s, after);
               t.shown.Some? ==> t.shown.value.request.nudges >= s.nudges && Usable(t.shown.value.external.addr)
  {
    RunKeeps(Start(listen), before);
    var s := After(Start(listen), before);
    StepKeeps(s, TakeNudge);
    RunKeeps(Step(s, TakeNudge), after);
    RunGrows(Step(s, TakeNudge), after);
  }

  /** The port the watchdog last moved the mesh to, or the first. */
  function PortInUse(listen: nat, es: seq<Event>): nat
    decreases |es|
  {
    if es == [] then listen
    else
      match es[|es| - 1]
      case Move(Some(to)) => to
      case _ => PortInUse(listen, es[..|es| - 1])
  }

  /** How often the network has been seen to change. */
  function Detections(es: seq<Event>): nat
    decreases |es|
  {
    if es == [] then 0 else Detections(es[..|es| - 1]) + if es[|es| - 1].Detect? then 1 else 0
  }

  lemma HistoryNext(s: State, done: seq<Event>, e: Event, listen: nat)
    requires Enabled(s, e) && s.listen == PortInUse(listen, done) && s.changes == Detections(done)
    ensures Step(s, e).listen == PortInUse(listen, done + [e]) && Step(s, e).changes == Detections(done + [e])
  {
    assert (done + [e])[..|done|] == done;
    hide Usable, NextPort, AfterRead;
  }

  lemma {:induction false} HistoryFrom(s: State, done: seq<Event>, es: seq<Event>, listen: nat)
    requires Runs(s, es) && s.listen == PortInUse(listen, done) && s.changes == Detections(done)
    ensures After(s, es).listen == PortInUse(listen, done + es) && After(s, es).changes == Detections(done + es)
    decreases |es|
  {
    if es == [] {
      assert done + es == done;
    } else {
      HistoryNext(s, done, es[0], listen);
      hide Step, Enabled, PortInUse, Detections;
      assert done + [es[0]] + es[1..] == done + es;
      HistoryFrom(Step(s, es[0]), done + [es[0]], es[1..], listen);
    }
  }

  /** Whenever the watchdog is idle and the channel is empty, what is announced was
      asked for after the last network change it saw and for the port it last moved to. */
  lemma SettledIsRight(listen: nat, es: seq<Event>)
    requires Runs(Start(listen), es)
    ensures var s := After(Start(listen), es);
            s.dog.Idle? && !s.full && s.shown.Some? ==>
              && s.shown.value.request.port == PortInUse(listen, es)
              && s.shown.value.request.changes == Detections(es)
              && Usable(s.shown.value.external.addr)
  {
    RunKeeps(Start(listen), es);
    HistoryFrom(Start(listen), [], es, listen);
    assert [] + es == es;
  }

  // ---------------------------------------------------------------- contention

  /** The router grants, a peer turns out to claim the grant too, and the mapper asks again. */
  function Round(a: Answer): seq<Event> {
    [Answered(a), Timer] + ([ReadPort, Check(true)] + [Ask])
  }

  /** The next ask goes on from the port that was granted, whatever was asked for. */
  lemma NextAskPassesTheGrant(s: State, a: Answer)
    requires s.pc.Asking? && s.port == s.listen && a.Granted? && Usable(a.external.addr)
    ensures Runs(s, Round(a))
    ensures var want := NextPort(s.port, a.external.port);
            After(s, Round(a)) == s.(want := want, shown := Some(Shown(a.external, s.pc.request)),
                                     pc := Asking(Request(s.port, want, s.nudges, s.changes)))
  {
    TwoSteps(s, Answered(a), Timer);
    var s2 := Step(Step(s, Answered(a)), Timer);
    TwoSteps(s2, ReadPort, Check(true));
    var s4 := Step(Step(s2, ReadPort), Check(true));
    assert [Ask][1..] == [] && Runs(Step(s4, Ask), []);
    assert Runs(s4, [Ask]) && After(s4, [Ask]) == Step(s4, Ask);
    Joined(s2, [ReadPort, Check(true)], [Ask]);
    Joined(s, [Answered(a), Timer], [ReadPort, Check(true)] + [Ask]);
  }

  /** If every ask is granted and every grant contested, the mapper walks the ports in the
      closed form's order, so it has tried every port above its own before it asks for
      one again. */
  lemma {:induction false} ContentionWalksThePorts(s: State, addr: Addr, lifetime: nat, n: nat, k: nat)
    returns (es: seq<Event>)
    requires s.pc.Asking? && s.port == s.listen && 0 < s.port < U16 - 1 && Usable(addr)
    requires s.pc.request.port == s.port && s.want == s.pc.request.want == Asks(s.port, n)
    ensures Runs(s, es)
    ensures var t := After(s, es);
            t.pc.Asking? && t.pc.request.port == s.port && t.pc.request.want == Asks(s.port, n + k) && t.port == t.listen == s.listen
    decreases k
  {
    if k == 0 {
      es := [];
    } else {
      var a := Granted(Endpoint(addr, s.pc.request.want), lifetime);
      NextAskPassesTheGrant(s, a);
      var t := After(s, Round(a));
      var rest := ContentionWalksThePorts(t, addr, lifetime, n + 1, k - 1);
      Joined(s, Round(a), rest);
      es := Round(a) + rest;
    }
  }

  // ---------------------------------------------------------------- what is announced and asked

  /** The last thing the router said, unless a nudge was taken since: what should be announced. */
  function LastSaid(es: seq<Event>): Option<Endpoint>
    decreases |es|
  {
    if es == [] then None
    else
      match es[|es| - 1]
      case Answered(Granted(external, _)) => if Usable(external.addr) then Some(external) else None
      case Answered(Refused) => None
      case TakeNudge => None
      case _ => LastSaid(es[..|es| - 1])
  }

  lemma {:induction false} AnnouncesFrom(s: State, done: seq<Event>, es: seq<Event>)
    requires Runs(s, es) && External(s) == LastSaid(done)
    ensures External(After(s, es)) == LastSaid(done + es)
    decreases |es|
  {
    if es == [] {
      assert done + es == done;
    } else {
      var next := done + [es[0]];
      assert next[..|next| - 1] == done && next + es[1..] == done + es;
      assert External(Step(s, es[0])) == LastSaid(next) by { hide Usable; }
      AnnouncesFrom(Step(s, es[0]), next, es[1..]);
    }
  }

  function External(s: State): Option<Endpoint> {
    if s.shown.Some? then Some(s.shown.value.external) else None
  }

  /** In every run the mesh announces exactly the last mapping the router granted, if that is
      one a member could dial, and nothing once the router has refused or the network has
      moved on. */
  lemma AnnouncesTheLastAnswer(listen: nat, es: seq<Event>)
    requires Runs(Start(listen), es)
    ensures External(After(Start(listen), es)) == LastSaid(es)
  {
    AnnouncesFrom(Start(listen), [], es);
    assert [] + es == es;
  }

  /** After a nudge, and after its own port has moved, the mapper asks for that port, whatever
      the last router had given it. */
  lemma AsksForItsOwnPort(s: State)
    ensures s.pc.Selecting? && s.full ==>
              var es := [TakeNudge, Reread] + ([ReadPort, Check(false)] + [Ask]);
              Runs(s, es) && After(s, es).pc == Asking(Request(s.listen, s.listen, s.nudges, s.changes))
    ensures s.pc.Top? && s.port != s.listen ==>
              var es := [ReadPort, Check(false)] + [Ask];
              Runs(s, es) && After(s, es).pc == Asking(Request(s.listen, s.listen, s.nudges, s.changes))
  {
    if s.pc.Selecting? && s.full {
      TwoSteps(s, TakeNudge, Reread);
      var t := Step(Step(s, TakeNudge), Reread);
      AsksUncontested(t);
      Joined(s, [TakeNudge, Reread], [ReadPort, Check(false)] + [Ask]);
    }
    if s.pc.Top? && s.port != s.listen {
      AsksUncontested(s);
    }
  }

  /** Uncontested, a pass of the loop asks for what it wanted, or for its own port if that has
      moved. */
  lemma AsksUncontested(s: State)
    requires s.pc.Top?
    ensures var es := [ReadPort, Check(false)] + [Ask];
            Runs(s, es) && After(s, es).pc == Asking(Request(s.listen, if s.port != s.listen then s.listen else s.want, s.nudges, s.changes))
  {
    TwoSteps(s, ReadPort, Check(false));
    var t := Step(Step(s, ReadPort), Check(false));
    assert [Ask][1..] == [] && Runs(Step(t, Ask), []);
    assert Runs(t, [Ask]) && After(t, [Ask]) == Step(t, Ask);
    Joined(s, [ReadPort, Check(false)], [Ask]);
  }
}

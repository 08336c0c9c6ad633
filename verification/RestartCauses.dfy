/** Exactly when the two watchdogs repair and restart, and that trouble which lasts is
    acted on (cmd/shrooms/daemon.go, watchRendezvous; cmd/shrooms/libwatch.go). */
module RestartCauses {
  import opened Options
  import opened Restarts
  import opened RestartRepairs
  import opened RestartRuns

  // ---------------------------------------------------------------- what a tick goes by

  /** When a mesh was last reachable, as of this tick. */
  function HeardAt(w: Rv, i: Input): int {
    if exists k :: 0 <= k < |i.sights| && i.sights[k].ok then i.now else w.healthy
  }

  /** Since when a condition that holds now has held, where it began in this process. */
  function Began(now: int, holds: bool, since: Option<int>): int
    requires holds
  {
    if since.Some? then since.value else now
  }

  predicate DeafNow(i: Input) {
    exists k :: 0 <= k < |i.sights| && i.sights[k].deaf >= 2 && i.sights[k].deaf * 2 >= i.sights[k].reachable
  }

  predicate SilentNow(i: Input) {
    exists k :: 0 <= k < |i.sights| && i.sights[k].silent
  }

  /** The change of network not yet answered with a restart. */
  function Change(w: Rv, i: Input): Option<int> {
    if i.underlay != w.underlay then Some(i.now) else w.netChanged
  }

  predicate Past(now: int, t: Option<int>, d: int) {
    t.None? || now >= t.value + d
  }

  /** The cheap repair is due. */
  predicate RepairDue(w: Rv, i: Input) {
    (DeafNow(i) || SilentNow(i)) && Past(i.now, w.lastRegraft, 45)
  }

  /** The four troubles, each old enough. */
  predicate Moved(w: Rv, i: Input) {
    Change(w, i).Some? && i.now >= Change(w, i).value + 45 && i.now >= HeardAt(w, i) + 45
  }

  predicate Down(w: Rv, i: Input) {
    i.now >= HeardAt(w, i) + 600
  }

  predicate LongSilent(w: Rv, i: Input) {
    SilentNow(i) && i.now >= Began(i.now, true, w.silentSince) + 120 && Past(i.now, w.lastSilentAct, 3600)
  }

  predicate LongDeaf(w: Rv, i: Input) {
    DeafNow(i) && i.now >= Began(i.now, true, w.deafSince) + 120
  }

  /** The first of them that is. */
  function Found(w: Rv, i: Input): Option<Cause> {
    if Moved(w, i) then Some(NetworkMoved)
    else if Down(w, i) then Some(Stalled)
    else if LongSilent(w, i) then Some(Silent)
    else if LongDeaf(w, i) then Some(Deafened)
    else None
  }

  /** A history of restarts that is forgotten at this tick: three hours up and well. */
  function KnownHistory(w: Rv, i: Input): Log {
    if i.now < HeardAt(w, i) + 600 && i.now >= w.started + 10800 then NoHistory else w.restarts
  }

  /** The backoff from a base after the restarts a history counts: the base doubled for
      each after the first, and two hours at most. */
  function BackedOff(l: Log, base: int): int
    requires l.count >= 1
  {
    var d := base * Pow2(l.count - 1);
    if d > 7200 then 7200 else d
  }

  /** The wait is over, or three hours are. */
  predicate WaitOver(l: Log, now: int, base: int)
    requires Sane(l)
  {
    l.last.None? || now >= l.last.value + 10800 || now >= l.last.value + BackedOff(l, base)
  }

  /** A tunnel shows the network is up, half an hour after the last restart; or the network
      has changed since it, two minutes after. */
  predicate Overridden(l: Log, now: int, stalled: bool, online: bool, change: Option<int>) {
    l.last.Some? &&
    (|| (stalled && online && now >= l.last.value + 1800)
     || (change.Some? && l.last.value < change.value && now >= l.last.value + 120))
  }

  lemma ReadyExact(l: Log, now: int, base: int)
    requires Sane(l) && 0 < base <= 7200
    ensures Ready(l, now, base) <==> WaitOver(l, now, base)
  {
    if l.count >= 1 {
      WaitIsBackoff(l, base);
    }
  }

  lemma LookExact(w: Rv, i: Input)
    ensures Look(w, i).healthy == HeardAt(w, i)
    ensures AnyDeaf(i.sights) == DeafNow(i) && AnySilent(i.sights) == SilentNow(i)
    ensures Look(w, i).deafSince == if DeafNow(i) then Some(Began(i.now, true, w.deafSince)) else None
    ensures Look(w, i).silentSince == if SilentNow(i) then Some(Began(i.now, true, w.silentSince)) else None
  {
    assert forall k :: 0 <= k < |i.sights| ==> (Deaf(i.sights[k]) <==> i.sights[k].deaf >= 2 && i.sights[k].deaf * 2 >= i.sights[k].reachable);
  }

  /** The last change of network this process has seen. */
  function LastChange(w: Rv, i: Input): Option<int> {
    if i.underlay != w.underlay then Some(i.now) else w.lastNetChange
  }

  /** Exactly when a tick repairs, when it restarts, and for which cause: six minutes up; no
      repair due; the first of the four troubles that is old enough; a default route and
      something to start the daemon again; and the history's wait over or overridden. */
  lemma TickExact(w: Rv, i: Input)
    requires Sane(w.restarts)
    ensures Tick(w, i).1 == Regraft <==> i.now >= w.started + 360 && RepairDue(w, i)
    ensures forall c :: Tick(w, i).1 == Restart(c) <==>
              && i.now >= w.started + 360 && !RepairDue(w, i)
              && Found(w, i) == Some(c)
              && i.route && i.restartable
              && (WaitOver(KnownHistory(w, i), i.now, 600)
                  || Overridden(KnownHistory(w, i), i.now, c == Stalled, i.online, LastChange(w, i)))
  {
    LookExact(w, i);
    ReadyExact(KnownHistory(w, i), i.now, Stall);
    SettleExact(w, i);
    hide Look, Settle, Ready, WaitOver, AnyDeaf, AnySilent, DeafNow, SilentNow, HeardAt, Note, BackedOff;
  }

  /** A tick that comes to judge: past the grace period, with no repair due. */
  predicate Judges(w: Rv, i: Input) {
    i.now >= w.started + 360 && !RepairDue(w, i)
  }

  /** What a tick leaves for the next: an answered change is spent, a silence acted on is
      not acted on again for an hour, and trouble that nothing would restart the daemon
      for is let begin again. */
  lemma TickLeaves(w: Rv, i: Input)
    requires Sane(w.restarts)
    ensures var (w', out) := Tick(w, i);
            var found := if Judges(w, i) then Found(w, i) else None;
            var blocked := found.Some? && i.route && !i.restartable;
            && w'.started == w.started && w'.underlay == i.underlay && w'.lastNetChange == LastChange(w, i)
            && w'.restarts == (if out.Restart? then Note(KnownHistory(w, i), i.now) else KnownHistory(w, i))
            && w'.lastRegraft == (if out == Regraft then Some(i.now) else w.lastRegraft)
            && w'.netChanged == (if found == Some(NetworkMoved) then None else Change(w, i))
            && w'.lastSilentAct == (if found == Some(Silent) then Some(i.now) else w.lastSilentAct)
            && w'.healthy == (if blocked then i.now else HeardAt(w, i))
            && w'.deafSince == (if DeafNow(i) && !blocked then Some(Began(i.now, true, w.deafSince)) else None)
            && w'.silentSince == (if SilentNow(i) then Some(Began(i.now, true, w.silentSince)) else None)
  {
    LookExact(w, i);
    SettleExact(w, i);
    TickExact(w, i);
    assert Settle(Look(w, i), i).underlay == i.underlay;
    hide Look, Settle, Ready, WaitOver, AnyDeaf, AnySilent, DeafNow, SilentNow, HeardAt, Note, BackedOff;
  }

  lemma SettleExact(w: Rv, i: Input)
    requires Sane(w.restarts)
    ensures var w1 := Settle(Look(w, i), i);
            && w1.restarts == KnownHistory(w, i) && w1.netChanged == Change(w, i) && w1.lastNetChange == LastChange(w, i)
            && w1.healthy == HeardAt(w, i) && w1.deafSince == Look(w, i).deafSince && w1.silentSince == Look(w, i).silentSince
            && w1.lastSilentAct == w.lastSilentAct && w1.lastRegraft == w.lastRegraft && w1.started == w.started
  {
  }

  /** Exactly when the library watchdog restarts. */
  lemma DecideExact(l: Log, now: int, dead: bool, restartable: bool)
    requires Sane(l)
    ensures Decide(l, now, dead, restartable).1 <==> dead && restartable && WaitOver(l, now, 1800)
  {
    ReadyExact(l, now, LibraryFloor);
  }

  /** A restart is counted on top of those of the last three hours, so that the wait after
      it is twice what it was, up to two hours; one after a quiet three hours starts over. */
  lemma WaitsDouble(l: Log, now: int, base: int)
    requires Sane(l) && 0 < base <= 7200
    ensures var l' := Note(l, now);
            && Sane(l') && l'.last == Some(now)
            && (l.last.Some? && now < l.last.value + 10800 ==>
                  BackedOff(l', base) == if 2 * BackedOff(l, base) > 7200 then 7200 else 2 * BackedOff(l, base))
            && (l.last.None? || now >= l.last.value + 10800 ==> BackedOff(l', base) == base)
  {
    if l.last.Some? && now < l.last.value + 10800 {
      assert Pow2(l.count) == 2 * Pow2(l.count - 1);
      DoubleProduct(base, Pow2(l.count - 1));
    }
  }

  lemma DoubleProduct(a: int, p: int)
    ensures a * (2 * p) == 2 * (a * p)
  {
  }

  // ---------------------------------------------------------------- trouble that lasts

  predicate AtRest(ins: seq<Input>, n: nat, underlay: int) {
    n <= |ins| && forall m :: 0 <= m < n ==> ins[m].underlay == underlay && !DeafNow(ins[m]) && !SilentNow(ins[m])
  }

  predicate Unreached(ins: seq<Input>, n: nat) {
    n <= |ins| && forall m :: 0 <= m < n ==> forall k :: 0 <= k < |ins[m].sights| ==> !ins[m].sights[k].ok
  }

  /** Until something is old enough, a process with nothing to repair is as it began. */
  lemma QuietTick(w: Rv, i: Input, now: int)
    requires w == Fresh(now, i.underlay, NoHistory) && !DeafNow(i) && !SilentNow(i) && HeardAt(w, i) == now && i.now < now + 600
    ensures Tick(w, i) == (w, Quiet)
  {
    LookExact(w, i);
    TickExact(w, i);
    hide AnyDeaf, AnySilent, DeafNow, SilentNow, HeardAt, AnyOk;
  }

  lemma {:induction false} QuietUntil(now: int, underlay: int, ins: seq<Input>, n: nat)
    requires AtRest(ins, n, underlay) && Unreached(ins, n)
    requires forall m :: 0 <= m < n ==> ins[m].now < now + 600
    ensures Ticks(Fresh(now, underlay, NoHistory), ins[..n]) == Fresh(now, underlay, NoHistory)
  {
    if n == 0 {
      assert ins[..0] == [];
    } else {
      QuietUntil(now, underlay, ins, n - 1);
      TicksNext(Fresh(now, underlay, NoHistory), ins, n - 1);
      QuietTick(Fresh(now, underlay, NoHistory), ins[n - 1], now);
    }
  }

  /** A plane that was never reached is restarted at the first tick ten minutes on, and at
      none before: in a process with no history, on a network that has not changed, with a
      route and something to start the daemon again at that tick. */
  lemma DownPlanesAreRestarted(now: int, underlay: int, ins: seq<Input>, n: nat)
    requires n < |ins| && AtRest(ins, n + 1, underlay) && Unreached(ins, n + 1)
    requires (forall m :: 0 <= m < n ==> ins[m].now < now + 600) && ins[n].now >= now + 600
    requires ins[n].route && ins[n].restartable
    ensures OutAt(Fresh(now, underlay, NoHistory), ins, n) == Restart(Stalled)
    ensures forall m :: 0 <= m < n ==> OutAt(Fresh(now, underlay, NoHistory), ins, m) == Quiet
  {
    var w := Fresh(now, underlay, NoHistory);
    QuietUntil(now, underlay, ins, n);
    TickExact(w, ins[n]);
    forall m | 0 <= m < n
      ensures OutAt(w, ins, m) == Quiet
    {
      QuietUntil(now, underlay, ins, m);
      QuietTick(w, ins[m], now);
    }
  }

  predicate Lasts(t: Trouble, ins: seq<Input>, n: nat) {
    n <= |ins| && forall m :: 0 <= m < n ==> Sees(t, ins[m]) && ins[m].route && ins[m].restartable
  }

  /** No tick before the n-th restarts. */
  predicate NoneRestarts(w: Rv, ins: seq<Input>, n: nat) {
    n <= |ins| && forall m :: 0 <= m < n ==> !OutAt(w, ins, m).Restart?
  }

  /** A tick with a route that restarts nothing has found nothing to restart for, and one
      that sees trouble keeps since when. */
  lemma KeepsSince(t: Trouble, w: Rv, i: Input)
    requires w.restarts == NoHistory && Sees(t, i) && i.route && i.restartable && !Tick(w, i).1.Restart?
    ensures var w' := Tick(w, i).0;
            && w'.restarts == NoHistory && w'.started == w.started && w'.lastSilentAct == w.lastSilentAct
            && Since(t, w') == Some(if Since(t, w).Some? then Since(t, w).value else i.now)
  {
    hide AnyDeaf, AnySilent, AnyOk;
  }

  lemma {:induction false} SinceTheFirst(t: Trouble, now: int, underlay: int, ins: seq<Input>, n: nat)
    requires Lasts(t, ins, n) && NoneRestarts(Fresh(now, underlay, NoHistory), ins, n)
    ensures var w := Ticks(Fresh(now, underlay, NoHistory), ins[..n]);
            && w.restarts == NoHistory && w.started == now && w.lastSilentAct.None?
            && Since(t, w) == if n == 0 then None else Some(ins[0].now)
  {
    var w0 := Fresh(now, underlay, NoHistory);
    if n == 0 {
      assert ins[..0] == [];
    } else {
      SinceTheFirst(t, now, underlay, ins, n - 1);
      TicksNext(w0, ins, n - 1);
      assert !OutAt(w0, ins, n - 1).Restart?;
      KeepsSince(t, Ticks(w0, ins[..n - 1]), ins[n - 1]);
    }
  }

  /** A plane found deaf, or silent, at every tick of a process for two minutes is acted on:
      at a tick six minutes up the gossip mesh is rejoined, or else the daemon restarts. */
  lemma LastingTroubleIsActedOn(t: Trouble, now: int, underlay: int, ins: seq<Input>, n: nat)
    requires 0 < n < |ins| && Lasts(t, ins, n + 1) && NoneRestarts(Fresh(now, underlay, NoHistory), ins, n)
    requires ins[n].now >= now + 360 && ins[n].now >= ins[0].now + 120
    ensures var out := OutAt(Fresh(now, underlay, NoHistory), ins, n);
            out == Regraft || out.Restart?
  {
    var w0 := Fresh(now, underlay, NoHistory);
    var w := Ticks(w0, ins[..n]);
    SinceTheFirst(t, now, underlay, ins, n);
    TickExact(w, ins[n]);
    LookExact(w, ins[n]);
    hide AnyDeaf, AnySilent, DeafNow, SilentNow, HeardAt, Tick, Ticks, AnyOk;
  }

  /** The network is another from the c-th tick on. */
  predicate MovesAt(ins: seq<Input>, n: nat, c: nat, from: int, to: int) {
    c < n <= |ins| && from != to && forall m :: 0 <= m < n ==> ins[m].underlay == if m < c then from else to
  }

  predicate Restartable(ins: seq<Input>, n: nat) {
    n <= |ins| && forall m :: 0 <= m < n ==> ins[m].route && ins[m].restartable
  }

  /** A tick that reaches nobody and restarts nothing keeps the change it knows of. */
  lemma KeepsChange(w: Rv, i: Input)
    requires w.restarts == NoHistory && HeardAt(w, i) == w.healthy && i.route && i.restartable && !Tick(w, i).1.Restart?
    ensures var w' := Tick(w, i).0;
            && w'.restarts == NoHistory && w'.started == w.started && w'.healthy == w.healthy
            && w'.underlay == i.underlay && w'.netChanged == Change(w, i)
  {
    LookExact(w, i);
    hide AnyDeaf, AnySilent, DeafNow, SilentNow, HeardAt, AnyOk;
  }

  lemma {:induction false} SinceTheMove(now: int, from: int, to: int, ins: seq<Input>, c: nat, n: nat)
    requires MovesAt(ins, n, c, from, to) || (n <= |ins| && n <= c && forall m :: 0 <= m < n ==> ins[m].underlay == from)
    requires Restartable(ins, n) && Unreached(ins, n) && NoneRestarts(Fresh(now, from, NoHistory), ins, n)
    ensures var w := Ticks(Fresh(now, from, NoHistory), ins[..n]);
            && w.restarts == NoHistory && w.started == now && w.healthy == now
            && w.underlay == (if c < n then to else from)
            && w.netChanged == if c < n then Some(ins[c].now) else None
  {
    var w0 := Fresh(now, from, NoHistory);
    if n == 0 {
      assert ins[..0] == [];
    } else {
      SinceTheMove(now, from, to, ins, c, n - 1);
      TicksNext(w0, ins, n - 1);
      assert !OutAt(w0, ins, n - 1).Restart?;
      KeepsChange(Ticks(w0, ins[..n - 1]), ins[n - 1]);
    }
  }

  /** A network that moved under a plane which reaches nobody is acted on: at a tick six
      minutes up and 45 seconds after the move was seen the gossip mesh is rejoined, or
      else the daemon restarts. */
  lemma MovedNetworksAreActedOn(now: int, from: int, to: int, ins: seq<Input>, c: nat, n: nat)
    requires n < |ins| && MovesAt(ins, n + 1, c, from, to)
    requires Restartable(ins, n + 1) && Unreached(ins, n + 1) && NoneRestarts(Fresh(now, from, NoHistory), ins, n)
    requires c < n && ins[n].now >= now + 360 && ins[n].now >= ins[c].now + 45
    ensures var out := OutAt(Fresh(now, from, NoHistory), ins, n);
            out == Regraft || out.Restart?
  {
    var w := Ticks(Fresh(now, from, NoHistory), ins[..n]);
    SinceTheMove(now, from, to, ins, c, n);
    TickExact(w, ins[n]);
    LookExact(w, ins[n]);
    hide AnyDeaf, AnySilent, DeafNow, SilentNow, Tick, Ticks, AnyOk;
  }
}

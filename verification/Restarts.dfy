/** Self-restart governance: the rendezvous watchdog (cmd/shrooms/daemon.go), the
    library watchdog (cmd/shrooms/libwatch.go) and the restart history they share
    on disk (cmd/shrooms/restartlog.go), over any number of process lives. Times
    and durations are whole seconds on one clock; a zero time.Time is None. */
module Restarts {
  import opened Options

  const Grace := 360             // rendezvousGrace
  const Stall := 600             // rendezvousStall
  const NetSettle := 45          // netSettle
  const DeafConfirm := 120       // deafConfirm
  const RegraftEvery := 45       // regraftEvery
  const SilentCooldown := 3600   // silentCooldown
  const ForgetAfter := 10800     // restartForgetAfter
  const Ceiling := 7200          // restartBackoffCeiling
  const LibraryFloor := 1800     // libraryRestartFloor
  const NetChangeFloor := 120    // networkChangeRestartFloor

  /** now.Sub(t) >= d, where a zero t is further back than any duration. */
  predicate AtLeast(now: int, t: Option<int>, d: int) {
    t.None? || now - t.value >= d
  }

  // ---------------------------------------------------------------- the history

  datatype Log = Log(count: int, last: Option<int>)

  const NoHistory := Log(0, None)

  /** What note and clear leave: a time exactly when a restart is counted. */
  predicate Sane(l: Log) {
    l.count >= 0 && (l.count > 0 <==> l.last.Some?)
  }

  function Doubled(base: int, i: nat, count: int): int
    decreases count - i
  {
    if i < count && base < Ceiling then Doubled(base * 2, i + 1, count) else base
  }

  function Wait(l: Log, base: int): int {
    if l.count <= 0 then 0
    else var d := Doubled(base, 1, l.count); if d > Ceiling then Ceiling else d
  }

  predicate Ready(l: Log, now: int, base: int) {
    l.last.None? || now - l.last.value >= ForgetAfter || now - l.last.value >= Wait(l, base)
  }

  function Note(l: Log, now: int): Log {
    Log((if l.last.Some? && now - l.last.value >= ForgetAfter then 0 else l.count) + 1, Some(now))
  }

  function Clear(l: Log): Log {
    if l.count == 0 then l else NoHistory
  }

  function Pow2(n: nat): (p: nat)
    ensures p >= 1
  {
    if n == 0 then 1 else 2 * Pow2(n - 1)
  }

  lemma {:induction false} DoubledIs(base: int, i: nat, count: int)
    requires base > 0 && i <= count
    ensures (if Doubled(base, i, count) > Ceiling then Ceiling else Doubled(base, i, count))
         == (if base * Pow2(count - i) > Ceiling then Ceiling else base * Pow2(count - i))
    decreases count - i
  {
    if i >= count {
    } else {
      assert base * Pow2(count - i) == base * 2 * Pow2(count - (i + 1));
      if base < Ceiling {
        DoubledIs(base * 2, i + 1, count);
      } else {
        assert base * 2 * Pow2(count - (i + 1)) >= base * 2 by {
          MulGrows(base * 2, Pow2(count - (i + 1)));
        }
      }
    }
  }

  lemma MulGrows(a: int, p: nat)
    requires a >= 0 && p >= 1
    ensures a * p >= a
  {
  }

  /** The backoff after n consecutive restarts: base, doubled n - 1 times, and
      never more than the ceiling. */
  lemma WaitIsBackoff(l: Log, base: int)
    requires l.count >= 1 && 0 < base <= Ceiling
    ensures var d := base * Pow2(l.count - 1); Wait(l, base) == if d > Ceiling then Ceiling else d
    ensures Wait(l, base) >= base
  {
    DoubledIs(base, 1, l.count);
    MulGrows(base, Pow2(l.count - 1));
  }

  /** restartLog.wait, with its loop. */
  method ComputeWait(l: Log, base: int) returns (d: int)
    requires 0 < base
    ensures d == Wait(l, base)
  {
    if l.count <= 0 { return 0; }
    d := base;
    var i := 1;
    while i < l.count && d < Ceiling
      invariant 1 <= i <= l.count && 0 < d
      invariant Doubled(d, i, l.count) == Doubled(base, 1, l.count)
      decreases l.count - i
    {
      d := d * 2;
      i := i + 1;
    }
    if d > Ceiling {
      d := Ceiling;
    }
  }

  // ---------------------------------------------------------------- the rendezvous watchdog

  /** What one mesh instance answers at a tick. */
  datatype Sight = Sight(ok: bool, silent: bool, deaf: nat, reachable: nat)

  predicate Deaf(s: Sight) {
    s.deaf >= 2 && s.deaf * 2 >= s.reachable
  }

  datatype Input = Input(
    now: int,
    sights: seq<Sight>,
    underlay: int,     // a fingerprint of the addresses on the real network
    route: bool,       // hasDefaultRoute
    restartable: bool,
    online: bool)      // onlineEvidence found a tunnel

  datatype Rv = Rv(
    started: int,
    restarts: Log,
    healthy: int,
    underlay: int,
    netChanged: Option<int>,
    lastNetChange: Option<int>,
    deafSince: Option<int>,
    silentSince: Option<int>,
    lastSilentAct: Option<int>,
    lastRegraft: Option<int>)

  function Fresh(now: int, underlay: int, history: Log): Rv {
    Rv(now, history, now, underlay, None, None, None, None, None, None)
  }

  datatype Cause = NetworkMoved | Stalled | Silent | Deafened

  /** What a tick does: nothing, the cheap repair, or a restart. */
  datatype Out = Quiet | Regraft | Restart(cause: Cause)

  predicate AnyOk(ss: seq<Sight>) { exists i :: 0 <= i < |ss| && ss[i].ok }
  predicate AnySilent(ss: seq<Sight>) { exists i :: 0 <= i < |ss| && ss[i].silent }
  predicate AnyDeaf(ss: seq<Sight>) { exists i :: 0 <= i < |ss| && Deaf(ss[i]) }

  /** Lines 1271-1306: what the instances say, and since when. */
  function Look(w: Rv, i: Input): Rv {
    w.(healthy := if AnyOk(i.sights) then i.now else w.healthy,
       deafSince := if !AnyDeaf(i.sights) then None else if w.deafSince.None? then Some(i.now) else w.deafSince,
       silentSince := if !AnySilent(i.sights) then None else if w.silentSince.None? then Some(i.now) else w.silentSince)
  }

  /** Lines 1317-1319. */
  predicate Clears(w: Rv, i: Input) {
    i.now - w.healthy < Stall && i.now - w.started >= ForgetAfter
  }

  /** Lines 1308-1336: forgetting an old outage, and noticing the network move. */
  function Settle(w: Rv, i: Input): Rv {
    var w1 := if Clears(w, i) then w.(restarts := Clear(w.restarts)) else w;
    if i.underlay != w1.underlay then w1.(underlay := i.underlay, netChanged := Some(i.now), lastNetChange := Some(i.now))
    else w1
  }

  predicate Repairs(w: Rv, i: Input) {
    (AnyDeaf(i.sights) || AnySilent(i.sights)) && AtLeast(i.now, w.lastRegraft, RegraftEvery)
  }

  /** Lines 1370-1402: what is wrong, if anything, and what naming it changes. */
  function Diagnose(w: Rv, i: Input): (Rv, Option<Cause>) {
    if w.netChanged.Some? && i.now - w.netChanged.value >= NetSettle && i.now - w.healthy >= NetSettle then
      (w.(netChanged := None), Some(NetworkMoved))
    else if i.now - w.healthy >= Stall then (w, Some(Stalled))
    else if w.silentSince.Some? && i.now - w.silentSince.value >= DeafConfirm && AtLeast(i.now, w.lastSilentAct, SilentCooldown) then
      (w.(lastSilentAct := Some(i.now)), Some(Silent))
    else if w.deafSince.Some? && i.now - w.deafSince.value >= DeafConfirm then (w, Some(Deafened))
    else (w, None)
  }

  /** rendezvousBackoffOverride */
  predicate BackoffOverride(l: Log, now: int, stalled: bool, online: bool) {
    stalled && online && l.last.Some? && now - l.last.value >= LibraryFloor
  }

  /** networkChangeOverride */
  predicate ChangeOverride(l: Log, now: int, change: Option<int>) {
    change.Some? && l.last.Some? && l.last.value < change.value && now - l.last.value >= NetChangeFloor
  }

  predicate MayRestart(w: Rv, i: Input, cause: Cause) {
    || Ready(w.restarts, i.now, Stall)
    || BackoffOverride(w.restarts, i.now, cause == Stalled, i.online)
    || ChangeOverride(w.restarts, i.now, w.lastNetChange)
  }

  /** One tick of watchRendezvous, lines 1252-1453. */
  function Tick(w0: Rv, i: Input): (Rv, Out) {
    var w := Settle(Look(w0, i), i);
    if i.now - w.started < Grace then (w, Quiet)
    else if Repairs(w, i) then (w.(lastRegraft := Some(i.now)), Regraft)
    else
      var (w', cause) := Diagnose(w, i);
      if cause.None? || !i.route then (w', Quiet)
      else if !i.restartable then (w'.(healthy := i.now, deafSince := None), Quiet)
      else if MayRestart(w', i, cause.value) then (w'.(restarts := Note(w'.restarts, i.now)), Restart(cause.value))
      else (w', Quiet)
  }

  /** The cheap repair comes first. A restart for a deaf or silent plane happens
      only if the gossip mesh was rejoined in this process less than 45 seconds
      earlier and after the condition had begun, and the condition has lasted two
      minutes. Tick times are arbitrary. */
  lemma RepairFirst(w: Rv, i: Input)
    requires Tick(w, i).1 == Restart(Deafened) || Tick(w, i).1 == Restart(Silent)
    ensures w.lastRegraft.Some? && i.now - w.lastRegraft.value < RegraftEvery
    ensures Tick(w, i).1 == Restart(Deafened) ==>
              AnyDeaf(i.sights) && w.deafSince.Some? && w.deafSince.value + DeafConfirm <= i.now && w.deafSince.value < w.lastRegraft.value
    ensures Tick(w, i).1 == Restart(Silent) ==>
              AnySilent(i.sights) && w.silentSince.Some? && w.silentSince.value + DeafConfirm <= i.now && w.silentSince.value < w.lastRegraft.value
  {
  }

  /** A restart never comes in the first six minutes of a process, and by its own
      history it waited the ten minutes, or a tunnel proved the network up half an
      hour after the last, or the network changed since the last. */
  lemma TickGap(w: Rv, i: Input)
    requires Sane(w.restarts) && Tick(w, i).1.Restart?
    ensures i.now - w.started >= Grace
    ensures w.restarts.last.Some? && !Clears(Look(w, i), i) ==>
              || i.now - w.restarts.last.value >= Stall
              || (Tick(w, i).0.lastNetChange.Some? && w.restarts.last.value < Tick(w, i).0.lastNetChange.value)
  {
    if w.restarts.count >= 1 {
      WaitIsBackoff(w.restarts, Stall);
    }
  }

  /** watchRendezvous: its variables, and the loop body as it is written. */
  class RendezvousWatch {
    var w: Rv
    var disk: Log // rendezvous-restarts.json

    constructor (now: int, underlay: int, history: Log)
      ensures w == Fresh(now, underlay, history) && disk == history
    {
      w := Fresh(now, underlay, history);
      disk := history;
    }

    method LookAround(i: Input) returns (deaf: bool, silent: bool)
      modifies this`w
      ensures w == Look(old(w), i) && deaf == AnyDeaf(i.sights) && silent == AnySilent(i.sights)
    {
      deaf, silent := false, false;
      var k := 0;
      while k < |i.sights|
        invariant 0 <= k <= |i.sights|
        invariant deaf == AnyDeaf(i.sights[..k]) && silent == AnySilent(i.sights[..k])
        invariant w == old(w).(healthy := if AnyOk(i.sights[..k]) then i.now else old(w).healthy)
      {
        var s := i.sights[k];
        assert i.sights[..k + 1] == i.sights[..k] + [s];
        AnySnoc(i.sights[..k], s);
        if s.ok {
          w := w.(healthy := i.now);
        }
        if s.silent {
          silent := true;
        }
        if s.deaf >= 2 && s.deaf * 2 >= s.reachable && !deaf {
          deaf := true;
        }
        k := k + 1;
      }
      assert i.sights[..k] == i.sights;
      if !deaf {
        w := w.(deafSince := None);
      } else if w.deafSince.None? {
        w := w.(deafSince := Some(i.now));
      }
      if !silent {
        w := w.(silentSince := None);
      } else if w.silentSince.None? {
        w := w.(silentSince := Some(i.now));
      }
    }

    /** Lines 1317-1336. */
    method Notice(i: Input)
      modifies this
      ensures w == Settle(old(w), i)
      ensures disk == if Clears(old(w), i) && old(w).restarts.count != 0 then NoHistory else old(disk)
    {
      if i.now - w.healthy < Stall && i.now - w.started >= ForgetAfter {
        if w.restarts.count != 0 {
          w := w.(restarts := NoHistory);
          disk := NoHistory;
        }
      }
      if i.underlay != w.underlay {
        w := w.(underlay := i.underlay, netChanged := Some(i.now), lastNetChange := Some(i.now));
      }
    }

    /** Lines 1365-1402. */
    method Judge(i: Input) returns (cause: Option<Cause>)
      modifies this`w
      ensures (w, cause) == Diagnose(old(w), i)
    {
      if w.netChanged.Some? && i.now - w.netChanged.value >= NetSettle && i.now - w.healthy >= NetSettle {
        w := w.(netChanged := None);
        cause := Some(NetworkMoved);
      } else if i.now - w.healthy >= Stall {
        cause := Some(Stalled);
      } else if w.silentSince.Some? && i.now - w.silentSince.value >= DeafConfirm &&
                AtLeast(i.now, w.lastSilentAct, SilentCooldown) {
        w := w.(lastSilentAct := Some(i.now));
        cause := Some(Silent);
      } else if w.deafSince.Some? && i.now - w.deafSince.value >= DeafConfirm {
        cause := Some(Deafened);
      } else {
        cause := None;
      }
    }

    /** The body of the loop. */
    method DoTick(i: Input) returns (out: Out)
      modifies this
      ensures (w, out) == Tick(old(w), i)
      ensures disk == if out.Restart? then w.restarts
                      else if Clears(Look(old(w), i), i) && old(w).restarts.count != 0 then NoHistory
                      else old(disk)
    {
      hide AnyOk, AnyDeaf, AnySilent, Look, Settle, Diagnose, Clears, Ready, BackoffOverride, ChangeOverride, Note;
      out := Quiet;
      LookKeepsLog(w, i);
      var deaf, silent := LookAround(i);
      Notice(i);
      if i.now - w.started < Grace { return; }
      if (deaf || silent) && AtLeast(i.now, w.lastRegraft, RegraftEvery) {
        w := w.(lastRegraft := Some(i.now));
        return Regraft;
      }
      var cause := Judge(i);
      if cause.None? { return; }
      if !i.route { return; }
      if !i.restartable {
        w := w.(healthy := i.now, deafSince := None);
        return;
      }
      if !Ready(w.restarts, i.now, Stall) {
        var over := BackoffOverride(w.restarts, i.now, cause == Some(Stalled), i.online);
        if !over && ChangeOverride(w.restarts, i.now, w.lastNetChange) {
          over := true;
        }
        if !over { return; }
      }
      w := w.(restarts := Note(w.restarts, i.now));
      disk := w.restarts;
      return Restart(cause.value);
    }
  }

  lemma LookKeepsLog(w: Rv, i: Input)
    ensures Look(w, i).restarts == w.restarts
  {
  }

  lemma AnySnoc(ss: seq<Sight>, s: Sight)
    ensures AnyOk(ss + [s]) == (AnyOk(ss) || s.ok)
    ensures AnySilent(ss + [s]) == (AnySilent(ss) || s.silent)
    ensures AnyDeaf(ss + [s]) == (AnyDeaf(ss) || Deaf(s))
  {
    var t := ss + [s];
    assert forall k :: 0 <= k < |ss| ==> t[k] == ss[k];
    assert t[|ss|] == s;
  }
}

/** Both watchdogs over whole runs: processes start, tick, ask to be restarted,
    linger while they shut down, end, and start again, with one history file. */
module RestartRuns {
  import opened Options
  import opened Restarts

  // ---------------------------------------------------------------- the library watchdog

  /** libraryWatch.decide: whether to restart, and the history after. */
  function Decide(l: Log, now: int, dead: bool, restartable: bool): (Log, bool) {
    if dead && restartable && Ready(l, now, LibraryFloor) then (Note(l, now), true) else (l, false)
  }

  class LibraryWatch {
    var restarts: Log
    var lastSaid: Option<int>

    constructor (history: Log)
      ensures restarts == history && lastSaid == None
    {
      restarts, lastSaid := history, None;
    }

    /** said is whether there is a line for the log. Held back, it is said at most
        every ten minutes. */
    method DecideNow(now: int, dead: bool, restartable: bool) returns (restart: bool, said: bool)
      modifies this
      ensures (restarts, restart) == Decide(old(restarts), now, dead, restartable)
      ensures said <==> dead && (restart || AtLeast(now, old(lastSaid), 600))
      ensures lastSaid == if said && !restart then Some(now) else old(lastSaid)
    {
      if !dead { return false, false; }
      if !restartable {
        if !AtLeast(now, lastSaid, 600) { return false, false; }
        lastSaid := Some(now);
        return false, true;
      }
      if !Ready(restarts, now, LibraryFloor) {
        if !AtLeast(now, lastSaid, 600) { return false, false; }
        lastSaid := Some(now);
        return false, true;
      }
      restarts := Note(restarts, now);
      return true, true;
    }
  }

  // ---------------------------------------------------------------- the world

  datatype Watch = Rendezvous | Library

  /** A watchdog asked for a restart: when, in which life, which one, and the last
      network change it had seen. */
  datatype Fire = Fire(at: int, life: nat, who: Watch, change: Option<int>)

  datatype Proc = Proc(rv: Rv, rvDone: bool, lib: Log, libDone: bool)

  datatype World = World(disk: Log, proc: Option<Proc>, life: nat, clock: int, fires: seq<Fire>)

  /** `saved` is whether the write of the history succeeded, `readable` whether the
      file could be read at boot. A watchdog that has fired ticks no more; the other
      may, until the process ends. */
  datatype Event =
    | Boot(now: int, underlay: int, readable: bool)
    | RvTick(i: Input, saved: bool)
    | LibTick(now: int, dead: bool, restartable: bool, saved: bool)
    | Exit(now: int)

  function When(e: Event): int {
    match e
    case Boot(now, _, _) => now
    case RvTick(i, _) => i.now
    case LibTick(now, _, _, _) => now
    case Exit(now) => now
  }

  /** A tick of the rendezvous watchdog writes the history when it clears it and
      when it fires. */
  function RvDisk(disk: Log, w: Rv, i: Input, saved: bool): Log {
    if !saved then disk
    else if Tick(w, i).1.Restart? then Tick(w, i).0.restarts
    else if Clears(Look(w, i), i) && w.restarts.count != 0 then NoHistory
    else disk
  }

  /** The world after an event; one that cannot happen now changes nothing. */
  function Step(w: World, e: Event): World {
    if When(e) < w.clock then w
    else
      match e
      case Boot(now, underlay, readable) =>
        if w.proc.Some? then w
        else
          var h := if readable then w.disk else NoHistory;
          w.(proc := Some(Proc(Fresh(now, underlay, h), false, h, false)), life := w.life + 1, clock := now)
      case RvTick(i, saved) =>
        if w.proc.None? || w.proc.value.rvDone then w
        else
          var p := w.proc.value;
          var (rv, out) := Tick(p.rv, i);
          World(RvDisk(w.disk, p.rv, i, saved), Some(p.(rv := rv, rvDone := out.Restart?)), w.life, i.now,
                if out.Restart? then w.fires + [Fire(i.now, w.life, Rendezvous, rv.lastNetChange)] else w.fires)
      case LibTick(now, dead, restartable, saved) =>
        if w.proc.None? || w.proc.value.libDone then w
        else
          var p := w.proc.value;
          var (lib, fired) := Decide(p.lib, now, dead, restartable);
          World(if fired && saved then lib else w.disk, Some(p.(lib := lib, libDone := fired)), w.life, now,
                if fired then w.fires + [Fire(now, w.life, Library, None)] else w.fires)
      case Exit(now) => w.(proc := None, clock := now)
  }

  const Begin := World(NoHistory, None, 0, 0, [])

  function Run(es: seq<Event>): World
    decreases |es|
  {
    if es == [] then Begin else Step(Run(es[..|es| - 1]), es[|es| - 1])
  }

  // ---------------------------------------------------------------- what is kept

  /** A history that names a restart, at or after f, or f is three hours past. */
  predicate Recalls(l: Log, f: Fire, now: int) {
    (l.last.Some? && f.at <= l.last.value) || f.at + ForgetAfter <= now
  }

  ghost predicate Fired(w: World, at: int) {
    exists k :: 0 <= k < |w.fires| && w.fires[k].at == at
  }

  ghost predicate Inv(w: World) {
    && Sane(w.disk)
    && (w.disk.last.Some? ==> w.disk.last.value <= w.clock && Fired(w, w.disk.last.value))
    && (forall k :: 0 <= k < |w.fires| ==> w.fires[k].at <= w.clock && w.fires[k].life <= w.life)
    && (w.proc.Some? ==>
          var p := w.proc.value;
          && Sane(p.rv.restarts) && Sane(p.lib)
          && p.rv.started <= w.clock
          && (p.rv.restarts.last.Some? ==> p.rv.restarts.last.value <= w.clock)
          && (p.lib.last.Some? ==> p.lib.last.value <= w.clock)
          && (p.libDone ==> p.lib.last.Some? && Fired(w, p.lib.last.value))
          && (p.rv.lastNetChange.Some? ==> p.rv.started <= p.rv.lastNetChange.value <= w.clock)
          && (forall k :: 0 <= k < |w.fires| && w.fires[k].life < w.life ==> w.fires[k].at <= p.rv.started)
          && (forall k :: 0 <= k < |w.fires| && w.fires[k].life == w.life ==>
                if w.fires[k].who.Rendezvous? then p.rvDone else p.libDone && p.lib.last == Some(w.fires[k].at)))
  }

  lemma TickKeeps(w: Rv, i: Input)
    requires Sane(w.restarts) && w.started <= i.now
    requires w.lastNetChange.Some? ==> w.started <= w.lastNetChange.value <= i.now
    requires w.restarts.last.Some? ==> w.restarts.last.value <= i.now
    ensures var w' := Tick(w, i).0;
            && Sane(w'.restarts) && w'.started == w.started
            && (w'.lastNetChange.Some? ==> w.started <= w'.lastNetChange.value <= i.now)
            && (w'.restarts.last.Some? ==> w'.restarts.last.value <= i.now)
            && (w'.restarts == w.restarts || w'.restarts == NoHistory || w'.restarts.last == Some(i.now))
            && (w'.restarts == NoHistory ==> w.restarts == NoHistory || i.now - w.started >= ForgetAfter)
            && (Tick(w, i).1.Restart? <==> w'.restarts.last == Some(i.now) && Tick(w, i).1 != Quiet && Tick(w, i).1 != Regraft)
  {
  }

  lemma FiredStays(w: World, w': World, at: int)
    requires Fired(w, at) && w.fires <= w'.fires
    ensures Fired(w', at)
  {
    var k :| 0 <= k < |w.fires| && w.fires[k].at == at;
    assert w'.fires[k] == w.fires[k];
  }

  lemma FiredNow(w: World, f: Fire)
    requires w.fires != [] && w.fires[|w.fires| - 1] == f
    ensures Fired(w, f.at)
  {
  }

  lemma RvKeeps(w: World, i: Input, saved: bool)
    requires Inv(w) && w.proc.Some? && !w.proc.value.rvDone && w.clock <= i.now
    ensures Inv(Step(w, RvTick(i, saved)))
  {
    var w' := Step(w, RvTick(i, saved));
    TickKeeps(w.proc.value.rv, i);
    if w.disk.last.Some? {
      FiredStays(w, w', w.disk.last.value);
    }
    if w.proc.value.libDone {
      FiredStays(w, w', w.proc.value.lib.last.value);
    }
    if Tick(w.proc.value.rv, i).1.Restart? {
      FiredNow(w', w'.fires[|w'.fires| - 1]);
    }
  }

  lemma LibKeeps(w: World, now: int, dead: bool, restartable: bool, saved: bool)
    requires Inv(w) && w.proc.Some? && !w.proc.value.libDone && w.clock <= now
    ensures Inv(Step(w, LibTick(now, dead, restartable, saved)))
  {
    var w' := Step(w, LibTick(now, dead, restartable, saved));
    if w.disk.last.Some? {
      FiredStays(w, w', w.disk.last.value);
    }
    if Decide(w.proc.value.lib, now, dead, restartable).1 {
      FiredNow(w', w'.fires[|w'.fires| - 1]);
    }
  }

  lemma StepKeeps(w: World, e: Event)
    requires Inv(w)
    ensures Inv(Step(w, e))
  {
    var w' := Step(w, e);
    if When(e) >= w.clock {
      match e {
        case RvTick(i, saved) =>
          if w.proc.Some? && !w.proc.value.rvDone {
            RvKeeps(w, i, saved);
          }
        case LibTick(now, dead, restartable, saved) =>
          if w.proc.Some? && !w.proc.value.libDone {
            LibKeeps(w, now, dead, restartable, saved);
          }
        case _ =>
          if w.disk.last.Some? {
            FiredStays(w, w', w.disk.last.value);
          }
          if w.proc.Some? && w.proc.value.libDone {
            FiredStays(w, w', w.proc.value.lib.last.value);
          }
      }
    }
  }

  lemma {:induction false} RunKeeps(es: seq<Event>)
    ensures Inv(Run(es))
  {
    if es == [] {
    } else {
      RunKeeps(es[..|es| - 1]);
      StepKeeps(Run(es[..|es| - 1]), es[|es| - 1]);
    }
  }

  // ---------------------------------------------------------------- keeping the history

  /** Every restart is in the file, or three hours past; and the running process
      knows those of earlier lives. */
  ghost predicate Kept(w: World) {
    && (forall k :: 0 <= k < |w.fires| ==> Recalls(w.disk, w.fires[k], w.clock))
    && (w.proc.Some? ==>
          forall k :: 0 <= k < |w.fires| && w.fires[k].life < w.life ==>
            Recalls(w.proc.value.rv.restarts, w.fires[k], w.clock) && Recalls(w.proc.value.lib, w.fires[k], w.clock))
  }

  /** The ways the shared history is lost: the file cannot be read at boot, the
      write of a restart fails, or the rendezvous watchdog forgets an old outage
      after the library watchdog has already asked for a restart in this process. */
  predicate Forgets(w: World, e: Event) {
    When(e) >= w.clock &&
    match e
    case Boot(now, _, readable) =>
      w.proc.None? && !readable && w.disk.last.Some? && now - w.disk.last.value < ForgetAfter
    case RvTick(i, saved) =>
      w.proc.Some? && !w.proc.value.rvDone &&
      var p := w.proc.value;
      if Tick(p.rv, i).1.Restart? then !saved && w.disk.last != Some(i.now)
      else saved && Clears(Look(p.rv, i), i) && p.rv.restarts.count != 0 && p.libDone && i.now - p.lib.last.GetOr(0) < ForgetAfter
    case LibTick(now, dead, restartable, saved) =>
      w.proc.Some? && !w.proc.value.libDone && Decide(w.proc.value.lib, now, dead, restartable).1 && !saved && w.disk.last != Some(now)
    case Exit(_) => false
  }

  ghost predicate NeverForgets(es: seq<Event>) {
    forall k :: 0 <= k < |es| ==> !Forgets(Run(es[..k]), es[k])
  }

  lemma BootKept(w: World, now: int, underlay: int, readable: bool)
    requires Inv(w) && Kept(w) && w.proc.None? && w.clock <= now
    ensures Kept(Step(w, Boot(now, underlay, readable))) <==> !Forgets(w, Boot(now, underlay, readable))
  {
    var w' := Step(w, Boot(now, underlay, readable));
    if Forgets(w, Boot(now, underlay, readable)) {
      var k :| 0 <= k < |w.fires| && w.fires[k].at == w.disk.last.value;
      assert !Recalls(NoHistory, w'.fires[k], now);
    }
  }

  lemma RvKept(w: World, i: Input, saved: bool)
    requires Inv(w) && Kept(w) && w.proc.Some? && !w.proc.value.rvDone && w.clock <= i.now
    ensures Kept(Step(w, RvTick(i, saved))) <==> !Forgets(w, RvTick(i, saved))
  {
    TickKeeps(w.proc.value.rv, i);
    if Tick(w.proc.value.rv, i).1.Restart? {
      RvFireKept(w, i, saved);
    } else {
      RvQuietKept(w, i, saved);
    }
  }

  lemma RvFireKept(w: World, i: Input, saved: bool)
    requires Inv(w) && Kept(w) && w.proc.Some? && !w.proc.value.rvDone && w.clock <= i.now
    requires Tick(w.proc.value.rv, i).1.Restart?
    ensures Kept(Step(w, RvTick(i, saved))) <==> !Forgets(w, RvTick(i, saved))
  {
    var w' := Step(w, RvTick(i, saved));
    TickKeeps(w.proc.value.rv, i);
    hide Tick, Clears;
    var n := |w.fires|;
    assert w'.fires[n].at == i.now;
    assert Recalls(w'.disk, w'.fires[n], i.now) <==> !Forgets(w, RvTick(i, saved));
  }

  lemma RvQuietKept(w: World, i: Input, saved: bool)
    requires Inv(w) && Kept(w) && w.proc.Some? && !w.proc.value.rvDone && w.clock <= i.now
    requires !Tick(w.proc.value.rv, i).1.Restart?
    ensures Kept(Step(w, RvTick(i, saved))) <==> !Forgets(w, RvTick(i, saved))
  {
    var p := w.proc.value;
    var w' := Step(w, RvTick(i, saved));
    TickKeeps(p.rv, i);
    QuietLog(p.rv, i);
    hide Tick, Clears;
    if Forgets(w, RvTick(i, saved)) {
      var k :| 0 <= k < |w.fires| && w.fires[k].at == p.lib.last.value;
      assert w'.fires[k] == w.fires[k] && !Recalls(NoHistory, w'.fires[k], i.now);
    }
  }

  /** A tick that restarts nothing keeps the history or clears it. */
  lemma QuietLog(w: Rv, i: Input)
    requires !Tick(w, i).1.Restart?
    ensures Tick(w, i).0.restarts == if Clears(Look(w, i), i) then Clear(w.restarts) else w.restarts
    ensures Clears(Look(w, i), i) ==> i.now - w.started >= ForgetAfter
  {
  }

  lemma LibKept(w: World, now: int, dead: bool, restartable: bool, saved: bool)
    requires Inv(w) && Kept(w) && w.proc.Some? && !w.proc.value.libDone && w.clock <= now
    ensures Kept(Step(w, LibTick(now, dead, restartable, saved))) <==> !Forgets(w, LibTick(now, dead, restartable, saved))
  {
    var w' := Step(w, LibTick(now, dead, restartable, saved));
    if Decide(w.proc.value.lib, now, dead, restartable).1 {
      var n := |w.fires|;
      assert w'.fires[n].at == now;
      assert Recalls(w'.disk, w'.fires[n], now) <==> !Forgets(w, LibTick(now, dead, restartable, saved));
    }
  }

  /** The shared history stays complete at a step exactly when the step is not one
      of the ways to lose it. */
  lemma KeptExact(w: World, e: Event)
    requires Inv(w) && Kept(w)
    ensures Kept(Step(w, e)) <==> !Forgets(w, e)
  {
    if When(e) >= w.clock {
      match e {
        case Boot(now, underlay, readable) =>
          if w.proc.None? {
            BootKept(w, now, underlay, readable);
          }
        case RvTick(i, saved) =>
          if w.proc.Some? && !w.proc.value.rvDone {
            RvKept(w, i, saved);
          }
        case LibTick(now, dead, restartable, saved) =>
          if w.proc.Some? && !w.proc.value.libDone {
            LibKept(w, now, dead, restartable, saved);
          }
        case Exit(_) =>
      }
    }
  }

  ghost predicate KeptThroughout(es: seq<Event>) {
    forall k :: 0 <= k <= |es| ==> Kept(Run(es[..k]))
  }

  /** What the last event adds to both. */
  lemma LastOne(es: seq<Event>)
    requires es != []
    ensures var pre, e := es[..|es| - 1], es[|es| - 1];
            && (KeptThroughout(es) <==> KeptThroughout(pre) && Kept(Run(es)))
            && (NeverForgets(es) <==> NeverForgets(pre) && !Forgets(Run(pre), e))
  {
    hide Run, Kept, Forgets;
    var pre := es[..|es| - 1];
    assert es[..|es|] == es;
    assert forall k :: 0 <= k <= |pre| ==> pre[..k] == es[..k];
  }

  /** Over every run the shared history is complete at every moment exactly when no
      event is one of the ways to lose it. */
  lemma {:induction false} KeptThroughoutExact(es: seq<Event>)
    ensures KeptThroughout(es) <==> NeverForgets(es)
  {
    if es == [] {
      assert es[..0] == [];
    } else {
      var pre := es[..|es| - 1];
      KeptThroughoutExact(pre);
      LastOne(es);
      hide Kept, Forgets, Step, NeverForgets;
      if KeptThroughout(pre) {
        assert pre[..|pre|] == pre;
        RunKeeps(pre);
        KeptExact(Run(pre), es[|es| - 1]);
      }
    }
  }

  // ---------------------------------------------------------------- the gaps

  /** What the design promises of a restart f and any restart g of an earlier
      process: six minutes for the rendezvous watchdog, and under ten only if the
      network changed in between; half an hour for the library watchdog. */
  predicate GapOk(g: Fire, f: Fire) {
    match f.who
    case Rendezvous => f.at - g.at >= Stall || (f.change.Some? && g.at < f.change.value <= f.at)
    case Library => f.at - g.at >= LibraryFloor
  }

  lemma RvGap(w: World, i: Input, saved: bool, g: Fire)
    requires Inv(w) && w.proc.Some? && !w.proc.value.rvDone && w.clock <= i.now && Tick(w.proc.value.rv, i).1.Restart?
    requires g in w.fires && g.life < w.life
    ensures i.now - g.at >= Grace
    ensures Kept(w) ==> GapOk(g, Fire(i.now, w.life, Rendezvous, Tick(w.proc.value.rv, i).0.lastNetChange))
  {
    TickKeeps(w.proc.value.rv, i);
    TickGap(w.proc.value.rv, i);
  }

  lemma LibGap(w: World, now: int, dead: bool, restartable: bool, g: Fire)
    requires Inv(w) && Kept(w) && w.proc.Some? && !w.proc.value.libDone && w.clock <= now
    requires Decide(w.proc.value.lib, now, dead, restartable).1
    requires g in w.fires && g.life < w.life
    ensures now - g.at >= LibraryFloor
  {
    var l := w.proc.value.lib;
    if l.count >= 1 {
      WaitIsBackoff(l, LibraryFloor);
    }
  }

  /** The library watchdog asks for a restart at this event. */
  predicate LibFires(w: World, e: Event) {
    e.LibTick? && w.clock <= e.now && w.proc.Some? && !w.proc.value.libDone
    && Decide(w.proc.value.lib, e.now, e.dead, e.restartable).1
  }

  /** The history its process started with names every restart of an earlier process
      that is less than half an hour old. */
  ghost predicate KnowsTheYoung(w: World, now: int) {
    w.proc.Some? ==>
      var l := w.proc.value.lib;
      forall k :: 0 <= k < |w.fires| && w.fires[k].life < w.life && now - w.fires[k].at < LibraryFloor ==>
        l.last.Some? && w.fires[k].at <= l.last.value
  }

  /** The library watchdog's half hour, over all its restarts. */
  ghost predicate FloorHeld(w: World) {
    forall a, b :: 0 <= a < b < |w.fires| && w.fires[a].life < w.fires[b].life && w.fires[b].who.Library? ==>
      w.fires[b].at - w.fires[a].at >= LibraryFloor
  }

  ghost predicate AlwaysKnew(es: seq<Event>) {
    forall k :: 0 <= k < |es| ==> LibFires(Run(es[..k]), es[k]) ==> KnowsTheYoung(Run(es[..k]), es[k].now)
  }

  lemma FloorStep(w: World, e: Event)
    requires Inv(w) && FloorHeld(w)
    ensures FloorHeld(Step(w, e)) <==> (LibFires(w, e) ==> KnowsTheYoung(w, e.now))
  {
    var w' := Step(w, e);
    if LibFires(w, e) {
      var l, n := w.proc.value.lib, |w.fires|;
      if l.count >= 1 {
        WaitIsBackoff(l, LibraryFloor);
      }
      assert w'.fires[n] == Fire(e.now, w.life, Library, None);
      if FloorHeld(w') {
        forall k | 0 <= k < n && w.fires[k].life < w.life
          ensures e.now - w.fires[k].at >= LibraryFloor
        {
          assert w'.fires[k] == w.fires[k];
        }
      }
    } else {
      assert |w'.fires| > |w.fires| ==> w'.fires[|w.fires|].who.Rendezvous?;
    }
  }

  /** What the last event adds to the knowledge. */
  lemma LastFire(es: seq<Event>)
    requires es != []
    ensures var pre, e := es[..|es| - 1], es[|es| - 1];
            AlwaysKnew(es) <==> AlwaysKnew(pre) && (LibFires(Run(pre), e) ==> KnowsTheYoung(Run(pre), e.now))
  {
    hide Run, LibFires, KnowsTheYoung;
    var pre := es[..|es| - 1];
    assert forall k :: 0 <= k < |pre| ==> pre[..k] == es[..k] && pre[k] == es[k];
  }

  /** Over every run, whatever happens to the history file: every library restart comes
      half an hour after every restart of an earlier process exactly when each of them
      was made by a process that started with a history naming all those that were
      still younger. */
  lemma {:induction false} FloorExact(es: seq<Event>)
    ensures FloorHeld(Run(es)) <==> AlwaysKnew(es)
  {
    if es == [] {
      assert Run(es).fires == [];
    } else {
      var pre, e := es[..|es| - 1], es[|es| - 1];
      FloorExact(pre);
      LastFire(es);
      RunKeeps(pre);
      assert Run(es) == Step(Run(pre), e);
      if FloorHeld(Run(pre)) {
        FloorStep(Run(pre), e);
      } else {
        FloorLost(Run(pre), e);
      }
    }
  }

  /** A floor once broken stays so. */
  lemma FloorLost(w: World, e: Event)
    requires !FloorHeld(w)
    ensures !FloorHeld(Step(w, e))
  {
    var w' := Step(w, e);
    assert w.fires <= w'.fires by { hide Tick, Decide, RvDisk; }
    var a, b :| 0 <= a < b < |w.fires| && w.fires[a].life < w.fires[b].life && w.fires[b].who.Library?
             && w.fires[b].at - w.fires[a].at < LibraryFloor;
    assert w'.fires[a] == w.fires[a] && w'.fires[b] == w.fires[b];
  }

  ghost predicate Spaced(w: World) {
    forall a, b :: 0 <= a < b < |w.fires| && w.fires[a].life < w.fires[b].life ==> GapOk(w.fires[a], w.fires[b])
  }

  lemma StepSpaced(w: World, e: Event)
    requires Inv(w) && Kept(w) && Spaced(w)
    ensures Spaced(Step(w, e))
  {
    var w' := Step(w, e);
    if |w'.fires| > |w.fires| {
      var n := |w.fires|;
      forall a | 0 <= a < n && w'.fires[a].life < w'.fires[n].life
        ensures GapOk(w'.fires[a], w'.fires[n])
      {
        match e {
          case RvTick(i, saved) => RvGap(w, i, saved, w.fires[a]);
          case LibTick(now, dead, restartable, saved) => LibGap(w, now, dead, restartable, w.fires[a]);
        }
      }
    }
  }

  lemma {:induction false} NeverForgetsKeeps(es: seq<Event>)
    requires NeverForgets(es)
    ensures Kept(Run(es)) && Spaced(Run(es))
  {
    if es == [] {
    } else {
      var n := |es| - 1;
      var pre := es[..n];
      forall k | 0 <= k < n
        ensures !Forgets(Run(pre[..k]), pre[k])
      {
        assert pre[..k] == es[..k] && pre[k] == es[k];
      }
      NeverForgetsKeeps(pre);
      RunKeeps(pre);
      KeptExact(Run(pre), es[n]);
      StepSpaced(Run(pre), es[n]);
    }
  }

  /** Over any number of process lives, any tick times and any health, deafness,
      library and network inputs: while the shared history is kept, a restart by
      the rendezvous watchdog comes ten minutes after every restart of an earlier
      process, or after a network change later than all of them; one by the
      library watchdog comes half an hour after them. */
  lemma RestartsAreSpaced(es: seq<Event>, a: nat, b: nat)
    requires NeverForgets(es) && a < b < |Run(es).fires| && Run(es).fires[a].life < Run(es).fires[b].life
    ensures GapOk(Run(es).fires[a], Run(es).fires[b])
  {
    NeverForgetsKeeps(es);
  }

  ghost predicate Sorted(w: World) {
    forall a, b :: 0 <= a < b < |w.fires| ==> w.fires[a].at <= w.fires[b].at
  }

  lemma {:induction false} RunSorted(es: seq<Event>)
    ensures Sorted(Run(es))
  {
    if es == [] {
      assert Run(es).fires == [];
    } else {
      RunSorted(es[..|es| - 1]);
      RunKeeps(es[..|es| - 1]);
    }
  }

  /** The b-th restart is the rendezvous watchdog's, less than ten minutes after one of
      an earlier process. */
  ghost predicate Early(fires: seq<Fire>, b: nat) {
    b < |fires| && fires[b].who.Rendezvous? &&
    exists a :: 0 <= a < b && fires[a].life < fires[b].life && fires[b].at - fires[a].at < Stall
  }

  /** A network change pays for one early restart only: any two in different lives,
      whatever restarts come between, were earned by different changes, the later one
      by a change after the earlier restart. */
  lemma ChangesAreSpentOnce(es: seq<Event>, b: nat, c: nat)
    requires NeverForgets(es) && b < c && Early(Run(es).fires, b) && Early(Run(es).fires, c)
    requires Run(es).fires[b].life < Run(es).fires[c].life
    ensures var f := Run(es).fires;
            f[b].change.Some? && f[c].change.Some? && f[b].change.value <= f[b].at < f[c].change.value <= f[c].at
  {
    NeverForgetsKeeps(es);
    RunSorted(es);
    hide Run;
    var f := Run(es).fires;
    var a :| 0 <= a < b && f[a].life < f[b].life && f[b].at - f[a].at < Stall;
    var d :| 0 <= d < c && f[d].life < f[c].life && f[c].at - f[d].at < Stall;
    assert GapOk(f[a], f[b]) && GapOk(f[d], f[c]) && GapOk(f[b], f[c]);
  }

  /** At the k-th event the watchdog of this life found its addresses other than they
      had been, at this time. */
  ghost predicate SawChange(es: seq<Event>, k: nat, life: nat, at: int) {
    k < |es| && es[k].RvTick? && es[k].i.now == at &&
    var w := Run(es[..k]);
    w.life == life && w.proc.Some? && !w.proc.value.rvDone && w.clock <= at && es[k].i.underlay != w.proc.value.rv.underlay
  }

  ghost predicate ChangesSeen(es: seq<Event>, w: World) {
    && (forall f :: f in w.fires && f.change.Some? ==> exists k: nat :: SawChange(es, k, f.life, f.change.value))
    && (w.proc.Some? && w.proc.value.rv.lastNetChange.Some? ==>
          exists k: nat :: SawChange(es, k, w.life, w.proc.value.rv.lastNetChange.value))
  }

  lemma TickSees(w: Rv, i: Input)
    ensures Tick(w, i).0.lastNetChange == if i.underlay != w.underlay then Some(i.now) else w.lastNetChange
  {
  }

  lemma SawLater(es: seq<Event>, e: Event, k: nat, life: nat, at: int)
    requires SawChange(es, k, life, at)
    ensures SawChange(es + [e], k, life, at)
  {
    assert (es + [e])[..k] == es[..k];
  }

  /** The change that a restart is earned by is one that a tick of that process saw. */
  lemma {:induction false} ChangesAreReal(es: seq<Event>)
    ensures ChangesSeen(es, Run(es))
  {
    if es == [] {
      assert Run(es) == Begin;
    } else {
      var pre, e := es[..|es| - 1], es[|es| - 1];
      ChangesAreReal(pre);
      assert es == pre + [e];
      StillSeen(pre, e, Run(pre));
      ChangeStep(es, e, Run(pre));
    }
  }

  lemma StillSeen(pre: seq<Event>, e: Event, w: World)
    requires ChangesSeen(pre, w)
    ensures ChangesSeen(pre + [e], w)
  {
    hide SawChange;
    forall f | f in w.fires && f.change.Some?
      ensures exists k: nat :: SawChange(pre + [e], k, f.life, f.change.value)
    {
      var k: nat :| SawChange(pre, k, f.life, f.change.value);
      SawLater(pre, e, k, f.life, f.change.value);
    }
    if w.proc.Some? && w.proc.value.rv.lastNetChange.Some? {
      var at := w.proc.value.rv.lastNetChange.value;
      var k: nat :| SawChange(pre, k, w.life, at);
      SawLater(pre, e, k, w.life, at);
    }
  }

  lemma ChangeStep(es: seq<Event>, e: Event, w: World)
    requires es != [] && e == es[|es| - 1] && w == Run(es[..|es| - 1]) && ChangesSeen(es, w)
    ensures ChangesSeen(es, Step(w, e))
  {
    if e.RvTick? && When(e) >= w.clock && w.proc.Some? && !w.proc.value.rvDone {
      TickSees(w.proc.value.rv, e.i);
      if e.i.underlay != w.proc.value.rv.underlay {
        assert SawChange(es, |es| - 1, w.life, e.i.now);
      }
    }
    hide Run, SawChange, Tick, RvDisk, Decide;
  }

  ghost predicate Graced(w: World) {
    forall a, b :: 0 <= a < b < |w.fires| && w.fires[a].life < w.fires[b].life && w.fires[b].who.Rendezvous? ==>
      w.fires[b].at - w.fires[a].at >= Grace
  }

  /** Whatever happens to the history, a rendezvous restart comes at least six
      minutes after every restart of an earlier process. */
  lemma {:induction false} SixMinutesAlways(es: seq<Event>)
    ensures Graced(Run(es))
  {
    if es == [] {
    } else {
      var pre, e := es[..|es| - 1], es[|es| - 1];
      SixMinutesAlways(pre);
      RunKeeps(pre);
      var w, w' := Run(pre), Run(es);
      if |w'.fires| > |w.fires| && e.RvTick? {
        forall a | 0 <= a < |w.fires| && w'.fires[a].life < w.life
          ensures w'.fires[|w.fires|].at - w'.fires[a].at >= Grace
        {
          RvGap(w, e.i, e.saved, w.fires[a]);
        }
      }
    }
  }

  // ---------------------------------------------------------------- losing it

  const Healthy := [Sight(true, false, 0, 0)]

  /** The library is declared dead as the process reaches three hours of uptime,
      and while it shuts down the rendezvous watchdog, its plane healthy, forgets
      the history. */
  const LateClear: seq<Event> := [
    Boot(0, 0, true), LibTick(1, true, true, true), Exit(2),
    Boot(3, 0, true), LibTick(10802, true, true, true), RvTick(Input(10803, Healthy, 0, true, true, false), true), Exit(10804),
    Boot(10805, 0, true), LibTick(11205, true, true, true)]

  /** Every read and write of the history succeeds. */
  predicate Faultless(es: seq<Event>) {
    forall k :: 0 <= k < |es| ==> match es[k] {
      case Boot(_, _, readable) => readable
      case RvTick(_, saved) => saved
      case LibTick(_, _, _, saved) => saved
      case Exit(_) => true
    }
  }

  lemma {:induction false} RunIs(es: seq<Event>, k: nat)
    requires k < |es|
    ensures Run(es[..k + 1]) == Step(Run(es[..k]), es[k])
  {
    assert es[..k + 1][..k] == es[..k];
  }

  lemma FirstLife()
    ensures Run(LateClear[..4]) ==
            World(Log(1, Some(1)), Some(Proc(Fresh(3, 0, Log(1, Some(1))), false, Log(1, Some(1)), false)), 2, 3, [Fire(1, 1, Library, None)])
  {
    assert Run(LateClear[..0]) == Begin;
    RunIs(LateClear, 0);
    RunIs(LateClear, 1);
    RunIs(LateClear, 2);
    RunIs(LateClear, 3);
  }

  lemma SecondLife()
    ensures Run(LateClear[..7]) ==
            World(NoHistory, None, 2, 10804, [Fire(1, 1, Library, None), Fire(10802, 2, Library, None)])
  {
    FirstLife();
    RunIs(LateClear, 4);
    RunIs(LateClear, 5);
    RunIs(LateClear, 6);
    assert Healthy[0].ok && AnyOk(Healthy);
    assert Run(LateClear[..5]).disk == Log(1, Some(10802));
    var w := Run(LateClear[..5]).proc.value.rv;
    assert Clears(Look(w, LateClear[5].i), LateClear[5].i);
    assert Tick(w, LateClear[5].i).1 == Quiet;
  }

  /** With every read and write succeeding, the library watchdog then ends the next
      process 403 seconds after the last restart instead of half an hour. */
  lemma LateClearBreaksTheFloor()
    ensures Faultless(LateClear)
    ensures var f := Run(LateClear).fires; |f| == 3 && f[1].life < f[2].life && f[2].who == Library && f[2].at - f[1].at == 403
  {
    SecondLife();
    RunIs(LateClear, 7);
    RunIs(LateClear, 8);
    assert LateClear[..9] == LateClear;
  }
}

/** What a call has done by the time it gives up the lifecycle mutex, told from the call
    that was made (mobile/mobile.go:1064-1445), in every interleaving of Start, Stop,
    StopForRestart and StopNode. */
module LifecycleEffects {
  import opened Options
  import opened Lifecycle

  /** What a goroutine has been through in its call: which it is, the session it found
      running at its check and the nodes started then, and the statement of Start that
      failed, if one did. */
  datatype Past = Past(call: Call, found: Option<Option<set<nat>>>, started: set<nat>, failed: bool, late: bool)

  /** The check for a session that each of the calls makes once. */
  predicate Checks(pc: Pc) {
    pc.StartCheck? || pc.StopTake? || pc.QuitCheck?
  }

  /** Start's statements that can fail once it has found no session; the meshes are late. */
  predicate CanFail(pc: Pc) {
    pc.StartOpen? || pc.StartNode? || pc.StartLib? || pc.StartMeshes?
  }

  /** A statement fails; one that only finds the node it needs cannot. */
  predicate Fails(s: State, pc: Pc, a: Act) {
    a.Fail? && ((pc.StartCheck? && s.running.None?) || (CanFail(pc) && !(pc.StartNode? && s.node.Some?)))
  }

  /** What t has been through in the call it is in, from the schedule alone. */
  function PastOf(sched: Schedule, t: nat): Option<Past>
    decreases |sched|
  {
    if sched == [] then None
    else
      var pre := sched[..|sched| - 1];
      var (u, a) := sched[|sched| - 1];
      var s := Run(Init, pre);
      var past := PastOf(pre, t);
      if u != t || Step(s, t, a).None? then past
      else if t !in s.threads then (if a.Begin? then Some(Past(a.call, None, {}, false, false)) else None)
      else if t !in Step(s, t, a).value.threads || past.None? then None
      else
        var p := past.value;
        var seen := if Checks(s.threads[t]) then p.(found := Some(s.running), started := s.started) else p;
        Some(if Fails(s, s.threads[t], a) then seen.(failed := true, late := s.threads[t].StartMeshes?) else seen)
  }

  predicate NoRedemption(sched: Schedule) {
    forall k :: 0 <= k < |sched| ==> sched[k].1 != Begin(CallRedeem)
  }

  /** Where a call is, and what of the shared state it has found or left so. */
  predicate Follows(s: State, pc: Pc, p: Past) {
    match pc
    case StartLock | StartMu | StartCheck => p == Past(CallStart, None, {}, false, false)
    case StartOpen(_) | StartNode(_) => p.call.CallStart? && p.found == Some(None) && !p.failed && s.started == p.started
    case StartLib(_) => p.call.CallStart? && p.found == Some(None) && !p.failed && s.started == p.started
    case StartMeshes(_) => p.call.CallStart? && p.found == Some(None) && !p.failed && s.node.Some? && s.started == {s.node.value}
    case StartUndo(_) => p.call.CallStart? && p.found == Some(None) && p.failed && p.late
    case StartClose(_) =>
      p.call.CallStart? && p.found == Some(None) && p.failed && s.started == if p.late then {} else p.started
    case StartUnlockMu => p.call.CallStart? && Ended(s, p)
    case StopLock(b) => p == Past(CallStop(b), None, {}, false, false)
    case StopMu(b) => p == Past(CallStop(b), None, {}, false, false)
    case StopTake(b) => p == Past(CallStop(b), None, {}, false, false)
    case StopClose(_, b) => p.call == CallStop(b) && p.found.Some? && p.found.value.Some? && s.started == p.started && s.running.None?
    case QuitLock | QuitMu | QuitCheck => p == Past(CallStopNode, None, {}, false, false)
    case NodeMu | NodeRead =>
      && s.running.None? && StopsTheNode(p)
    case NodeLib(n) =>
      && s.running.None? && StopsTheNode(p) && n == s.node
    case Unlock => Ended(s, p)
    case _ => true
  }

  /** A disconnect that took a session, or a StopNode that found none. */
  predicate StopsTheNode(p: Past) {
    p.found.Some? && ((p.call == CallStop(true) && p.found.value.Some?) || (p.call.CallStopNode? && p.found.value.None?))
  }

  /** What a call has done, by what it is, what it found and whether it failed. */
  predicate Ended(s: State, p: Past) {
    p.found.Some? &&
    match p.call
    case CallStop(stopNode) =>
      && s.running.None?
      && s.started == if p.found.value.Some? && stopNode then {} else p.started
    case CallStopNode =>
      && s.running == p.found.value
      && s.started == if p.found.value.None? then {} else p.started
    case CallStart =>
      if p.found.value.Some? then !p.failed && s.running == p.found.value && s.started == p.started
      else if p.failed then s.running.None? && s.started == if p.late then {} else p.started
      else s.running.Some? && s.node.Some? && s.started == {s.node.value}
    case CallRedeem => true
  }

  /** While t holds the lifecycle mutex nobody else touches the session or the node. */
  lemma OthersKeepOff(s: State, u: nat, a: Act)
    requires Inv(s) && Step(s, u, a).Some? && (u in s.threads ==> !Redeeming(s.threads[u]))
    requires s.lifecycle.Some? && s.lifecycle != Some(u)
    ensures var s' := Step(s, u, a).value;
            s'.started == s.started && s'.running == s.running && s'.node == s.node
  {
    if u in s.threads {
      LockedOut(s, u);
    }
    hide Inv;
  }

  lemma LockedOut(s: State, u: nat)
    requires Inv(s) && u in s.threads && s.lifecycle.Some? && s.lifecycle != Some(u)
    ensures !HoldsLifecycle(s.threads[u])
  {
    assert ThreadOk(s, u);
  }

  lemma StartFollows(s: State, t: nat, a: Act, p: Past)
    requires Inv(s) && t in s.threads && Body(s.threads[t]) == InStart && Follows(s, s.threads[t], p) && Step(s, t, a).Some?
    ensures var s' := Step(s, t, a).value;
            var seen := if Checks(s.threads[t]) then p.(found := Some(s.running), started := s.started) else p;
            var p' := if Fails(s, s.threads[t], a) then seen.(failed := true, late := s.threads[t].StartMeshes?) else seen;
            t in s'.threads && Follows(s', s'.threads[t], p')
  {
    hide StepStop, StepShare, StepLaunch;
    assert ThreadOk(s, t);
    assert NodeOk(s);
    hide Inv;
  }

  predicate InSession(pc: Pc) {
    pc.StopLock? || pc.StopMu? || pc.StopTake? || pc.StopClose?
  }

  predicate InQuit(pc: Pc) {
    pc.QuitLock? || pc.QuitMu? || pc.QuitCheck?
  }

  predicate InNode(pc: Pc) {
    pc.NodeMu? || pc.NodeRead? || pc.NodeLib?
  }

  lemma StopFollows(s: State, t: nat, a: Act, p: Past)
    requires Inv(s) && t in s.threads && Body(s.threads[t]) == InStop && Follows(s, s.threads[t], p) && Step(s, t, a).Some?
    ensures var s' := Step(s, t, a).value;
            var p' := if Checks(s.threads[t]) then p.(found := Some(s.running), started := s.started) else p;
            t in s'.threads ==> Follows(s', s'.threads[t], p')
    ensures !Fails(s, s.threads[t], a)
    ensures t !in Step(s, t, a).value.threads <==> s.threads[t].Unlock?
  {
    StopEnds(s, t, a);
    if InSession(s.threads[t]) {
      SessionFollows(s, t, a, p);
    } else if InQuit(s.threads[t]) {
      QuitFollows(s, t, a, p);
    } else if InNode(s.threads[t]) {
      NodeFollows(s, t, a, p);
    }
  }

  /** A call leaves by giving up the lifecycle mutex, and stopping never fails. */
  lemma StopEnds(s: State, t: nat, a: Act)
    requires t in s.threads && Body(s.threads[t]) == InStop && Step(s, t, a).Some?
    ensures !Fails(s, s.threads[t], a)
    ensures t !in Step(s, t, a).value.threads <==> s.threads[t].Unlock?
  {
    hide StepStart, StepShare, StepLaunch;
  }

  lemma SessionFollows(s: State, t: nat, a: Act, p: Past)
    requires Inv(s) && t in s.threads && InSession(s.threads[t]) && Follows(s, s.threads[t], p) && Step(s, t, a).Some?
    ensures var s' := Step(s, t, a).value;
            var p' := if Checks(s.threads[t]) then p.(found := Some(s.running), started := s.started) else p;
            t in s'.threads && Follows(s', s'.threads[t], p')
  {
    hide StepStart, StepShare, StepLaunch;
    assert ThreadOk(s, t);
    hide Inv;
  }

  /** There is no node to stop but the package's. */
  lemma OnlyTheNode(s: State)
    requires Inv(s)
    ensures forall n :: n in s.started ==> s.node == Some(n)
  {
    assert NodeOk(s);
  }

  lemma QuitFollows(s: State, t: nat, a: Act, p: Past)
    requires Inv(s) && t in s.threads && InQuit(s.threads[t]) && Follows(s, s.threads[t], p) && Step(s, t, a).Some?
    ensures var s' := Step(s, t, a).value;
            var p' := if Checks(s.threads[t]) then p.(found := Some(s.running), started := s.started) else p;
            t in s'.threads && Follows(s', s'.threads[t], p')
  {
    hide StepStart, StepShare, StepLaunch;
    assert ThreadOk(s, t);
    hide Inv, ThreadOk;
  }

  lemma NodeFollows(s: State, t: nat, a: Act, p: Past)
    requires Inv(s) && t in s.threads && InNode(s.threads[t]) && Follows(s, s.threads[t], p) && Step(s, t, a).Some?
    ensures var s' := Step(s, t, a).value;
            t in s'.threads && Follows(s', s'.threads[t], p)
  {
    hide StepStart, StepShare, StepLaunch;
    assert ThreadOk(s, t);
    OnlyTheNode(s);
    hide Inv, ThreadOk;
    if s.threads[t].NodeLib? {
      assert s.started - (if s.node.Some? then {s.node.value} else {}) == {};
    }
  }

  /** A step of another goroutine changes nothing for t, wherever t is. */
  lemma OtherFollows(s: State, t: nat, u: nat, a: Act, p: Past)
    requires Inv(s) && t in s.threads && u != t && Step(s, u, a).Some? && Follows(s, s.threads[t], p)
    requires !Redeeming(s.threads[t]) && (u in s.threads ==> !Redeeming(s.threads[u]))
    ensures var s' := Step(s, u, a).value;
            t in s'.threads && s'.threads[t] == s.threads[t] && Follows(s', s.threads[t], p)
  {
    var s' := Step(s, u, a).value;
    assert ThreadOk(s, t);
    if u in s.threads {
      StepMoves(s, u, a);
    }
    assert t in s.threads - {u} && t in s'.threads - {u};
    assert s'.threads[t] == (s'.threads - {u})[t] == (s.threads - {u})[t];
    if HoldsLifecycle(s.threads[t]) {
      OthersKeepOff(s, u, a);
    }
  }

  lemma {:induction false} RunFollows(sched: Schedule, t: nat)
    requires NoRedemption(sched)
    ensures var s, past := Run(Init, sched), PastOf(sched, t);
            t in s.threads <==> past.Some?
    ensures var s, past := Run(Init, sched), PastOf(sched, t);
            t in s.threads ==> Follows(s, s.threads[t], past.value)
  {
    if sched == [] {
    } else {
      var pre := sched[..|sched| - 1];
      var (u, a) := sched[|sched| - 1];
      RunFollows(pre, t);
      RunKeeps(pre);
      NobodyRedeems(pre);
      var s := Run(Init, pre);
      assert sched == pre + [(u, a)];
      assert Run(Init, sched) == After(s, u, a);
      hide Follows, Inv, Redeeming, Step, Run;
      if Step(s, u, a).Some? {
        if u != t {
          StillAway(s, t, u, a);
          if t in s.threads {
            OtherFollows(s, t, u, a, PastOf(pre, t).value);
          }
        } else if t in s.threads {
          OwnStep(pre, s, t, a);
        }
      }
    }
  }

  lemma StillAway(s: State, t: nat, u: nat, a: Act)
    requires Inv(s) && u != t && Step(s, u, a).Some?
    ensures t in Step(s, u, a).value.threads <==> t in s.threads
  {
    var s' := Step(s, u, a).value;
    if u in s.threads {
      StepMoves(s, u, a);
    }
    assert t in s.threads <==> t in s.threads - {u};
    assert t in s'.threads <==> t in s'.threads - {u};
  }

  lemma OwnStep(pre: Schedule, s: State, t: nat, a: Act)
    requires s == Run(Init, pre) && Inv(s) && t in s.threads && !Redeeming(s.threads[t]) && Step(s, t, a).Some?
    requires PastOf(pre, t).Some? && Follows(s, s.threads[t], PastOf(pre, t).value)
    ensures var s', past := Step(s, t, a).value, PastOf(pre + [(t, a)], t);
            (t in s'.threads <==> past.Some?) && (t in s'.threads ==> Follows(s', s'.threads[t], past.value))
  {
    assert (pre + [(t, a)])[..|pre|] == pre;
    if Body(s.threads[t]) == InStart {
      StartFollows(s, t, a, PastOf(pre, t).value);
    } else {
      StopFollows(s, t, a, PastOf(pre, t).value);
    }
    hide Follows, Run, Inv;
  }

  /** In every interleaving of the four calls, when one is about to give up the lifecycle
      mutex: Stop has ended the session it found and stopped the node; StopForRestart has
      ended it and left the node as it was; either finding none has changed nothing;
      StopNode has stopped the node if there was no session and changed nothing if there
      was; Start has left a session it found alone, and otherwise runs one on a started
      node, or has failed and left none, with the node stopped if the meshes failed and as
      it was if something before them did. */
  lemma CallsDoWhatTheyAre(sched: Schedule, t: nat)
    requires NoRedemption(sched)
    requires var s := Run(Init, sched); t in s.threads && s.threads[t] == Unlock
    ensures PastOf(sched, t).Some? && Ended(Run(Init, sched), PastOf(sched, t).value)
  {
    RunFollows(sched, t);
  }

  /** Every device is closed once a Stop, of either kind, or a failed Start is over. */
  lemma NothingIsLeftOpen(sched: Schedule, t: nat)
    requires NoRedemption(sched)
    requires var s := Run(Init, sched); t in s.threads && s.threads[t] == Unlock
    ensures var p := PastOf(sched, t);
            p.Some? && (p.value.call.CallStop? || (p.value.call.CallStart? && p.value.failed)) ==> Run(Init, sched).open == {}
  {
    RunFollows(sched, t);
    RunKeeps(sched);
    var s := Run(Init, sched);
    assert ThreadOk(s, t);
    assert Owned(s) == {};
  }

  // ---------------------------------------------------------------- an enrolment

  /** The first k steps of one redemption in which nothing fails. */
  function Redeem(t: nat, k: nat): Schedule {
    if k == 0 then [] else Redeem(t, k - 1) + [(t, if k == 1 then Begin(CallRedeem) else Go)]
  }

  lemma RedeemNext(s: State, t: nat, k: nat)
    requires k > 0
    ensures var a := if k == 1 then Begin(CallRedeem) else Go;
            var pre := Run(s, Redeem(t, k - 1));
            Run(s, Redeem(t, k)) == if Step(pre, t, a).Some? then Step(pre, t, a).value else pre
  {
    hide Step;
    assert Redeem(t, k)[..|Redeem(t, k)| - 1] == Redeem(t, k - 1);
  }

  /** The node a redemption uses: the one there is, or a new one. */
  function Shared(s: State): nat {
    if s.node.Some? then s.node.value else s.built
  }

  function WithNode(s: State): State {
    s.(node := Some(Shared(s)), built := if s.node.Some? then s.built else s.built + 1)
  }

  /** Nobody but t is in a call. */
  predicate OnlyAt(s: State, t: nat, pc: Pc) {
    s.threads == map[t := pc]
  }

  function To(s: State, t: nat, pc: Pc): State {
    s.(threads := map[t := pc])
  }

  /** One step of a redemption that nobody is beside. */
  lemma OneTakes(s: State, t: nat, pc: Pc, next: Pc)
    requires OnlyAt(s, t, pc) && s.mu.None?
    requires (pc == RedeemMu && next == RedeemRead) || (pc == ShareMu && next == Share)
             || (pc.LaunchMu? && next == Launch(pc.node)) || (pc.IdleMu? && next == IdleCheck(pc.node))
    ensures Step(s, t, Go) == Some(To(s, t, next).(mu := Some(t)))
  {
    hide StepStart, StepStop;
    assert s.threads[t := next] == map[t := next];
  }

  lemma OneReads(s: State, t: nat)
    requires OnlyAt(s, t, RedeemRead)
    ensures Step(s, t, Go) == Some(if s.node.Some? && s.running.Some? then s.(threads := map[], mu := None)
                                   else To(s, t, ShareMu).(mu := None))
  {
    hide StepStart, StepStop, StepLaunch;
    assert s.threads[t := ShareMu] == map[t := ShareMu] && s.threads - {t} == map[];
  }

  lemma OneShares(s: State, t: nat)
    requires OnlyAt(s, t, Share)
    ensures Step(s, t, Go) == Some(To(WithNode(s), t, LaunchMu(Shared(s))).(mu := None))
  {
    hide StepStart, StepStop, StepLaunch;
    assert s.threads[t := LaunchMu(Shared(s))] == map[t := LaunchMu(Shared(s))];
  }

  lemma OneLaunches(s: State, t: nat, m: nat)
    requires OnlyAt(s, t, Launch(m))
    ensures Step(s, t, Go) == Some(To(s, t, Exchange(m)).(mu := None, started := s.started + {m}))
  {
    hide StepStart, StepStop, StepShare;
    assert s.threads[t := Exchange(m)] == map[t := Exchange(m)];
  }

  lemma OneExchanges(s: State, t: nat, m: nat)
    requires OnlyAt(s, t, Exchange(m))
    ensures Step(s, t, Go) == Some(To(s, t, IdleMu(m)))
  {
    hide StepStart, StepStop, StepShare;
    assert s.threads[t := IdleMu(m)] == map[t := IdleMu(m)];
  }

  lemma OneIsIdle(s: State, t: nat, m: nat)
    requires OnlyAt(s, t, IdleCheck(m)) && s.running.None?
    ensures Step(s, t, Go) == Some(To(s, t, LateStop(m)).(mu := None))
  {
    hide StepStart, StepStop, StepShare;
    assert s.threads[t := LateStop(m)] == map[t := LateStop(m)];
  }

  lemma OneStops(s: State, t: nat, m: nat)
    requires OnlyAt(s, t, LateStop(m))
    ensures Step(s, t, Go) == Some(s.(threads := map[], started := s.started - {m}))
  {
    hide StepStart, StepStop, StepShare;
    assert s.threads - {t} == map[];
  }

  lemma RedeemGoes(s: State, t: nat, k: nat, pre: State, next: State)
    requires k > 1 && Run(s, Redeem(t, k - 1)) == pre && Step(pre, t, Go) == Some(next)
    ensures Run(s, Redeem(t, k)) == next
  {
    RedeemNext(s, t, k);
    hide *;
  }

  lemma RedeemBegins(s: State, t: nat)
    requires s.threads == map[]
    ensures Run(s, Redeem(t, 1)) == To(s, t, RedeemMu)
  {
    assert Redeem(t, 0) == [] && Run(s, []) == s;
    RedeemNext(s, t, 1);
    assert s.threads[t := RedeemMu] == map[t := RedeemMu];
  }

  lemma RedeemLooks(s: State, t: nat)
    requires s.threads == map[] && s.mu.None?
    ensures Run(s, Redeem(t, 3)) == if s.node.Some? && s.running.Some? then s else To(s, t, ShareMu)
  {
    RedeemBegins(s, t);
    hide Run, Redeem, Step;
    OneTakes(To(s, t, RedeemMu), t, RedeemMu, RedeemRead);
    RedeemNext(s, t, 2);
    OneReads(To(s, t, RedeemRead).(mu := Some(t)), t);
    RedeemNext(s, t, 3);
  }

  lemma RedeemShares(s: State, t: nat)
    requires s.threads == map[] && s.mu.None? && s.running.None?
    ensures Run(s, Redeem(t, 5)) == To(WithNode(s), t, LaunchMu(Shared(s)))
  {
    RedeemLooks(s, t);
    hide Run, Redeem, Step, Shared;
    OneTakes(To(s, t, ShareMu), t, ShareMu, Share);
    RedeemNext(s, t, 4);
    OneShares(To(s, t, Share).(mu := Some(t)), t);
    RedeemNext(s, t, 5);
    SharedAlike(s, t);
  }

  lemma SharedAlike(s: State, t: nat)
    requires s.mu.None?
    ensures Shared(To(s, t, Share).(mu := Some(t))) == Shared(s)
    ensures To(WithNode(To(s, t, Share).(mu := Some(t))), t, LaunchMu(Shared(s))).(mu := None) == To(WithNode(s), t, LaunchMu(Shared(s)))
  {
  }

  lemma RedeemStarts(s: State, t: nat)
    requires s.threads == map[] && s.mu.None? && s.running.None?
    ensures Run(s, Redeem(t, 7)) == To(WithNode(s), t, Exchange(Shared(s))).(started := s.started + {Shared(s)})
  {
    RedeemShares(s, t);
    var m, up := Shared(s), WithNode(s);
    assert up.mu.None? && up.started == s.started;
    hide Run, Redeem, Step, Shared, WithNode;
    OneTakes(To(up, t, LaunchMu(m)), t, LaunchMu(m), Launch(m));
    RedeemNext(s, t, 6);
    OneLaunches(To(up, t, Launch(m)).(mu := Some(t)), t, m);
    RedeemNext(s, t, 7);
  }

  /** Its end, from a state where it has just exchanged. */
  lemma RedeemEnds(s: State, t: nat, m: nat, up: State)
    requires Run(s, Redeem(t, 7)) == To(up, t, Exchange(m)) && up.mu.None? && up.running.None?
    ensures Run(s, Redeem(t, 11)) == up.(threads := map[], started := up.started - {m})
  {
    hide Run, Redeem, Step;
    OneExchanges(To(up, t, Exchange(m)), t, m);
    RedeemGoes(s, t, 8, To(up, t, Exchange(m)), To(up, t, IdleMu(m)));
    OneTakes(To(up, t, IdleMu(m)), t, IdleMu(m), IdleCheck(m));
    RedeemGoes(s, t, 9, To(up, t, IdleMu(m)), To(up, t, IdleCheck(m)).(mu := Some(t)));
    OneIsIdle(To(up, t, IdleCheck(m)).(mu := Some(t)), t, m);
    RedeemGoes(s, t, 10, To(up, t, IdleCheck(m)).(mu := Some(t)), To(up, t, LateStop(m)));
    OneStops(To(up, t, LateStop(m)), t, m);
    RedeemGoes(s, t, 11, To(up, t, LateStop(m)), up.(threads := map[], started := up.started - {m}));
  }

  lemma RedeemStops(s: State, t: nat)
    requires s.threads == map[] && s.mu.None? && s.running.None?
    ensures Run(s, Redeem(t, 11)) == WithNode(s).(started := s.started - {Shared(s)})
  {
    RedeemStarts(s, t);
    hide Run, Redeem, Shared;
    var m, up := Shared(s), WithNode(s).(started := s.started + {Shared(s)});
    RedeemEnds(s, t, m, up);
    assert up.started - {m} == s.started - {m};
  }

  /** An invite redeemed while nobody else calls, from any state that calls can leave: with a
      session and its node up it changes nothing; with none the exchange goes on over a
      started node, built if there was none, and after it the node is stopped. */
  lemma EnrolmentAlone(s: State, t: nat)
    requires Inv(s) && s.threads == map[]
    ensures s.node.Some? && s.running.Some? ==> Run(s, Redeem(t, 3)) == s
    ensures s.running.None? ==>
              var mid, end := Run(s, Redeem(t, 7)), Run(s, Redeem(t, 11));
              && t in mid.threads && mid.threads[t].Exchange? && mid.node.Some? && mid.node.value in mid.started
              && (s.node.Some? ==> mid.node == s.node)
              && end.threads == map[] && end.node == mid.node && end.started == s.started - {end.node.value}
              && end.running.None? && end.open == s.open && end.mu.None? && end.lifecycle.None?
  {
    assert s.mu.None? && s.lifecycle.None?;
    RedeemLooks(s, t);
    hide Run, Redeem, Inv;
    if s.running.None? {
      RedeemStarts(s, t);
      RedeemStops(s, t);
    }
  }

  // ---------------------------------------------------------------- nobody waits for ever

  /** The goroutine has a statement to execute, whatever the calls in progress. */
  ghost predicate CanMove(s: State, t: nat) {
    t in s.threads && exists a: Act :: !a.Begin? && Step(s, t, a).Some?
  }

  /** Nothing but a mutex can stop a goroutine. */
  lemma Unhindered(s: State, t: nat)
    requires Inv(s) && t in s.threads
    requires WantsLifecycle(s.threads[t]) ==> s.lifecycle.None?
    requires WantsMu(s.threads[t]) ==> s.mu.None?
    ensures CanMove(s, t)
  {
    assert ThreadOk(s, t);
    var pc := s.threads[t];
    var devs := DevsOf(pc);
    if (pc.StartClose? || pc.StopClose?) && devs != {} {
      var d :| d in devs;
      assert Step(s, t, Shut(d)).Some?;
    } else {
      assert Step(s, t, Go).Some?;
    }
  }

  predicate WantsLifecycle(pc: Pc) {
    pc.StartLock? || pc.StopLock? || pc.QuitLock?
  }

  predicate WantsMu(pc: Pc) {
    || pc.StartMu? || pc.StopMu? || pc.QuitMu? || pc.NodeMu?
    || pc.RedeemMu? || pc.ShareMu? || pc.LaunchMu? || pc.IdleMu?
  }

  /** In every interleaving of all the calls, redemptions too, while any is in progress one
      of them can move: the two mutexes never wait for each other. */
  lemma NoDeadlock(sched: Schedule)
    requires Run(Init, sched).threads != map[]
    ensures exists t :: CanMove(Run(Init, sched), t)
  {
    RunKeeps(sched);
    var s := Run(Init, sched);
    hide Run, CanMove;
    var t: nat;
    if s.mu.Some? {
      t := s.mu.value;
    } else if s.lifecycle.Some? {
      t := s.lifecycle.value;
    } else {
      t :| t in s.threads;
    }
    assert t in s.threads && ThreadOk(s, t);
    Unhindered(s, t);
  }
}

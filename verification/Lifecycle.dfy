/** The phone session lifecycle (mobile/mobile.go): Start, Stop, StopForRestart,
    StopNode and invite redemption, running in any number of goroutines over two
    mutexes and one process-global delivery node.

    Every goroutine is a program counter. A schedule picks, at each step, a
    goroutine and how its next statement turns out, so a fact about all schedules
    is a fact about all interleavings. */
module Lifecycle {
  import opened Options

  datatype Call =
    | CallStart
    | CallStop(stopNode: bool) // Stop is stopSession(true), StopForRestart is stopSession(false)
    | CallStopNode
    | CallRedeem

  /** Where a goroutine is. `devs` are the devices (and the mux) the goroutine
      has opened or taken over and nobody else refers to. */
  datatype Pc =
    // Start
    | StartLock
    | StartMu
    | StartCheck
    | StartOpen(devs: set<nat>)
    | StartNode(devs: set<nat>)
    | StartLib(devs: set<nat>)
    | StartMeshes(devs: set<nat>)
    | StartUndo(devs: set<nat>)
    | StartClose(devs: set<nat>)
    | StartUnlockMu
    // stopSession
    | StopLock(stopNode: bool)
    | StopMu(stopNode: bool)
    | StopTake(stopNode: bool)
    | StopClose(devs: set<nat>, stopNode: bool)
    // StopNode
    | QuitLock
    | QuitMu
    | QuitCheck
    // stopNodeLocked
    | NodeMu
    | NodeRead
    | NodeLib(n: Option<nat>)
    // the deferred lifecycle.Unlock shared by the three
    | Unlock
    // redeemInvite
    | RedeemMu
    | RedeemRead
    | ShareMu
    | Share
    | LaunchMu(node: nat)
    | Launch(node: nat)
    | Exchange(node: nat)
    | IdleMu(node: nat)
    | IdleCheck(node: nat)
    | LateStop(node: nat)

  datatype State = State(
    threads: map<nat, Pc>,
    lifecycle: Option<nat>,    // who holds the lifecycle mutex
    mu: Option<nat>,           // who holds mu
    running: Option<set<nat>>, // the running session, as the devices it holds
    node: Option<nat>,         // the package variable `node`
    built: nat,                // how many nodes waku.New has made
    started: set<nat>,         // the nodes that are started
    open: set<nat>,            // the devices that are open
    nextDev: nat)

  const Init := State(map[], None, None, None, None, 0, {}, {}, 0)

  /** What the environment decides at a step: a call made by an idle goroutine,
      the ordinary outcome of a statement, its failure, one more turn of the loop
      that opens devices, or which device a closing loop closes next (any order,
      so the source's is among them). */
  datatype Act = Begin(call: Call) | Go | Fail | Again | Shut(dev: nat)

  function Entry(c: Call): Pc {
    match c
    case CallStart => StartLock
    case CallStop(b) => StopLock(b)
    case CallStopNode => QuitLock
    case CallRedeem => RedeemMu
  }

  predicate HoldsLifecycle(pc: Pc) {
    match pc
    case StartLock | StopLock(_) | QuitLock => false
    case RedeemMu | RedeemRead | ShareMu | Share | LaunchMu(_) | Launch(_)
      | Exchange(_) | IdleMu(_) | IdleCheck(_) | LateStop(_) => false
    case _ => true
  }

  predicate HoldsMu(pc: Pc) {
    match pc
    case StartCheck | StartOpen(_) | StartNode(_) | StartLib(_) | StartMeshes(_)
      | StartUndo(_) | StartClose(_) | StartUnlockMu => true
    case StopTake(_) | QuitCheck | NodeRead => true
    case RedeemRead | Share | Launch(_) | IdleCheck(_) => true
    case _ => false
  }

  function At(s: State, t: nat, pc: Pc): (s': State)
    ensures s'.threads - {t} == s.threads - {t}
  {
    s.(threads := s.threads[t := pc])
  }

  function Done(s: State, t: nat): (s': State)
    ensures s'.threads - {t} == s.threads - {t}
  {
    s.(threads := s.threads - {t})
  }

  function TakeLifecycle(s: State, t: nat, pc: Pc): Option<State> {
    if s.lifecycle.None? then Some(At(s, t, pc).(lifecycle := Some(t))) else None
  }

  function TakeMu(s: State, t: nat, pc: Pc): Option<State> {
    if s.mu.None? then Some(At(s, t, pc).(mu := Some(t))) else None
  }

  function DropMu(s: State): State {
    s.(mu := None)
  }

  /** Start, statement by statement (mobile/mobile.go:1064-1367). */
  function StepStart(s: State, t: nat, pc: Pc, a: Act): Option<State> {
    match pc
    case StartLock => TakeLifecycle(s, t, StartMu)
    case StartMu => TakeMu(s, t, StartCheck)
    case StartCheck =>
      // "already running", or a config that does not load, returns; otherwise
      // the mux is made.
      if s.running.Some? || a.Fail? then Some(At(s, t, StartUnlockMu))
      else Some(At(s, t, StartOpen({s.nextDev})).(open := s.open + {s.nextDev}, nextDev := s.nextDev + 1))
    case StartOpen(devs) =>
      if a.Fail? then Some(At(s, t, StartClose(devs)))
      else if a.Again? then
        Some(At(s, t, StartOpen(devs + {s.nextDev})).(open := s.open + {s.nextDev}, nextDev := s.nextDev + 1))
      else Some(At(s, t, StartNode(devs)))
    case StartNode(devs) =>
      if s.node.Some? then Some(At(s, t, StartLib(devs)))
      else if a.Fail? then Some(At(s, t, StartClose(devs)))
      else Some(At(s, t, StartLib(devs)).(node := Some(s.built), built := s.built + 1))
    case StartLib(devs) =>
      if s.node.None? then None
      else if a.Fail? then Some(At(s, t, StartClose(devs)))
      else Some(At(s, t, StartMeshes(devs)).(started := s.started + {s.node.value}))
    case StartMeshes(devs) =>
      if a.Fail? then Some(At(s, t, StartUndo(devs)))
      else Some(At(s, t, StartUnlockMu).(running := Some(devs)))
    case StartUndo(devs) =>
      if s.node.None? then None
      else Some(At(s, t, StartClose(devs)).(started := s.started - {s.node.value}))
    case StartClose(devs) =>
      if devs == {} then Some(At(s, t, StartUnlockMu))
      else if a.Shut? && a.dev in devs then Some(At(s, t, StartClose(devs - {a.dev})).(open := s.open - {a.dev}))
      else None
    case StartUnlockMu => Some(DropMu(At(s, t, Unlock)))
    case _ => None
  }

  /** stopSession, StopNode and stopNodeLocked (mobile/mobile.go:1382-1445). */
  function StepStop(s: State, t: nat, pc: Pc, a: Act): Option<State> {
    match pc
    case StopLock(b) => TakeLifecycle(s, t, StopMu(b))
    case StopMu(b) => TakeMu(s, t, StopTake(b))
    case StopTake(b) =>
      if s.running.None? then Some(DropMu(At(s, t, Unlock)))
      else Some(DropMu(At(s, t, StopClose(s.running.value, b))).(running := None))
    case StopClose(devs, b) =>
      if devs == {} then Some(At(s, t, if b then NodeMu else Unlock))
      else if a.Shut? && a.dev in devs then Some(At(s, t, StopClose(devs - {a.dev}, b)).(open := s.open - {a.dev}))
      else None
    case QuitLock => TakeLifecycle(s, t, QuitMu)
    case QuitMu => TakeMu(s, t, QuitCheck)
    case QuitCheck => Some(DropMu(At(s, t, if s.running.Some? then Unlock else NodeMu)))
    case NodeMu => TakeMu(s, t, NodeRead)
    case NodeRead => Some(DropMu(At(s, t, NodeLib(s.node))))
    case NodeLib(n) =>
      Some(At(s, t, Unlock).(started := if n.Some? then s.started - {n.value} else s.started))
    case Unlock => Some(Done(s, t).(lifecycle := None))
    case _ => None
  }

  /** redeemInvite as far as it touches the node: finding it, with sharedNode
      (mobile/mobile.go:299-335, 1555-1570). */
  function StepShare(s: State, t: nat, pc: Pc, a: Act): Option<State> {
    match pc
    case RedeemMu => TakeMu(s, t, RedeemRead)
    case RedeemRead =>
      // a running session's node is only listened to
      if s.node.Some? && s.running.Some? then Some(DropMu(Done(s, t)))
      else Some(DropMu(At(s, t, ShareMu)))
    case ShareMu => TakeMu(s, t, Share)
    case Share =>
      if s.node.Some? then Some(DropMu(At(s, t, LaunchMu(s.node.value))))
      else if a.Fail? then Some(DropMu(Done(s, t)))
      else Some(DropMu(At(s, t, LaunchMu(s.built))).(node := Some(s.built), built := s.built + 1))
    case _ => None
  }

  /** redeemInvite with startNode, meshIdle and the deferred cleanup that stops
      the node outside every lock (mobile/mobile.go:347-358, 1505-1520). */
  function StepLaunch(s: State, t: nat, pc: Pc, a: Act): Option<State> {
    match pc
    case LaunchMu(n) => TakeMu(s, t, Launch(n))
    case Launch(n) =>
      if a.Fail? then Some(DropMu(Done(s, t)))
      else Some(DropMu(At(s, t, Exchange(n))).(started := s.started + {n}))
    case Exchange(n) => Some(At(s, t, IdleMu(n)))
    case IdleMu(n) => TakeMu(s, t, IdleCheck(n))
    case IdleCheck(n) => Some(DropMu(if s.running.None? then At(s, t, LateStop(n)) else Done(s, t)))
    case LateStop(n) => Some(Done(s, t).(started := s.started - {n}))
    case _ => None
  }

  datatype Text = InStart | InStop | InShare | InLaunch

  /** Which of the four texts above a goroutine is in. */
  function Body(pc: Pc): Text {
    match pc
    case StartLock | StartMu | StartCheck | StartOpen(_) | StartNode(_) | StartLib(_)
      | StartMeshes(_) | StartUndo(_) | StartClose(_) | StartUnlockMu => InStart
    case RedeemMu | RedeemRead | ShareMu | Share => InShare
    case LaunchMu(_) | Launch(_) | Exchange(_) | IdleMu(_) | IdleCheck(_) | LateStop(_) => InLaunch
    case _ => InStop
  }

  predicate Redeeming(pc: Pc) {
    Body(pc) == InShare || Body(pc) == InLaunch
  }

  /** One step of goroutine t, or None when it cannot move (it waits for a
      mutex, or the act does not apply). */
  function Step(s: State, t: nat, a: Act): Option<State> {
    if t !in s.threads then
      if a.Begin? then Some(At(s, t, Entry(a.call))) else None
    else if a.Begin? then None
    else
      var pc := s.threads[t];
      match Body(pc)
      case InStart => StepStart(s, t, pc, a)
      case InStop => StepStop(s, t, pc, a)
      case InShare => StepShare(s, t, pc, a)
      case InLaunch => StepLaunch(s, t, pc, a)
  }

  type Schedule = seq<(nat, Act)>

  /** The state after a schedule; a choice that cannot move changes nothing. */
  function Run(s: State, sched: Schedule): State
    decreases |sched|
  {
    if sched == [] then s
    else
      var pre := Run(s, sched[..|sched| - 1]);
      var (t, a) := sched[|sched| - 1];
      var post := Step(pre, t, a);
      if post.Some? then post.value else pre
  }

  // ---------------------------------------------------------------- the invariant

  /** The devices only the goroutine at pc refers to. */
  function DevsOf(pc: Pc): set<nat> {
    match pc
    case StartOpen(d) => d
    case StartNode(d) => d
    case StartLib(d) => d
    case StartMeshes(d) => d
    case StartUndo(d) => d
    case StartClose(d) => d
    case StopClose(d, _) => d
    case _ => {}
  }

  function Owned(s: State): set<nat> {
    if s.lifecycle.Some? && s.lifecycle.value in s.threads then DevsOf(s.threads[s.lifecycle.value]) else {}
  }

  function Held(s: State): set<nat> {
    if s.running.Some? then s.running.value else {}
  }

  /** The goroutine has passed a point that is only reached with no session
      running, and still holds the lifecycle mutex. */
  predicate Exclusive(pc: Pc) {
    match pc
    case StartOpen(_) | StartNode(_) | StartLib(_) | StartMeshes(_) | StartUndo(_) | StartClose(_) => true
    case StopClose(_, _) | NodeMu | NodeRead | NodeLib(_) => true
    case _ => false
  }

  /** The node a goroutine has in hand is the package's node. */
  predicate NodeInHand(s: State, pc: Pc) {
    match pc
    case StartLib(_) | StartMeshes(_) | StartUndo(_) => s.node.Some?
    case NodeLib(n) => n.Some? ==> s.node == n
    case LaunchMu(n) => s.node == Some(n)
    case Launch(n) => s.node == Some(n)
    case Exchange(n) => s.node == Some(n)
    case IdleMu(n) => s.node == Some(n)
    case IdleCheck(n) => s.node == Some(n)
    case LateStop(n) => s.node == Some(n)
    case _ => true
  }

  ghost predicate ThreadOk(s: State, t: nat)
    requires t in s.threads
  {
    var pc := s.threads[t];
    && (HoldsLifecycle(pc) <==> s.lifecycle == Some(t))
    && (HoldsMu(pc) <==> s.mu == Some(t))
    && (Exclusive(pc) ==> s.running.None?)
    && NodeInHand(s, pc)
  }

  /** The two mutexes exclude, and every goroutine is where its locks and its
      copies of the shared variables say it is. */
  ghost predicate ThreadsOk(s: State) {
    && (s.lifecycle.Some? ==> s.lifecycle.value in s.threads)
    && (s.mu.Some? ==> s.mu.value in s.threads)
    && (forall t :: t in s.threads ==> ThreadOk(s, t))
  }

  /** At most one node is ever built, and the variable names it. */
  predicate NodeOk(s: State) {
    && s.built <= 1
    && s.node == (if s.built == 0 then None else Some(0))
    && s.started <= (if s.node.Some? then {s.node.value} else {})
    && (s.running.Some? ==> s.node.Some?)
  }

  /** Every open device belongs to the running session or to the transition in
      progress, and to one of them only: nothing leaks on any exit. */
  ghost predicate DevicesOk(s: State) {
    && s.open == Held(s) + Owned(s)
    && Held(s) !! Owned(s)
    && (forall d :: d in s.open ==> d < s.nextDev)
  }

  /** What every step keeps, whatever calls are made. */
  ghost predicate Inv(s: State) {
    ThreadsOk(s) && NodeOk(s) && DevicesOk(s)
  }

  /** A goroutine is inside Start, past node.Start(), about to publish the session. */
  predicate Starting(s: State) {
    s.lifecycle.Some? && s.lifecycle.value in s.threads && s.threads[s.lifecycle.value].StartMeshes?
  }

  /** A session needs the node: it is running, or its Start has started the node. */
  predicate Wanted(s: State) {
    s.running.Some? || Starting(s)
  }

  /** Every session that needs the node has it started. */
  predicate Healthy(s: State) {
    Wanted(s) ==> s.node.Some? && s.node.value in s.started
  }

  /** The cleanup of a redemption stops the node while a session needs it. */
  predicate Harmful(s: State, t: nat, a: Act) {
    t in s.threads && s.threads[t].LateStop? && !a.Begin? && Wanted(s)
  }

  // ---------------------------------------------------------------- every step

  /** A step of t moves only t, takes a mutex only when it is free, gives up
      only its own, and replaces the running session or the node only in the ways
      the other goroutines do not notice. */
  ghost predicate Moves(s: State, s': State, t: nat) {
    && s'.threads - {t} == s.threads - {t}
    && (s'.lifecycle == s.lifecycle
        || (s.lifecycle == Some(t) && s'.lifecycle.None?)
        || (s.lifecycle.None? && s'.lifecycle == Some(t)))
    && (s'.mu == s.mu
        || (s.mu == Some(t) && s'.mu.None?)
        || (s.mu.None? && s'.mu == Some(t)))
    && (s'.running == s.running || s'.running.None? || s.lifecycle == Some(t))
    && (s.node.Some? ==> s'.node == s.node)
    && (t in s'.threads ==> ThreadOk(s', t))
    && (t !in s'.threads ==> s'.lifecycle != Some(t) && s'.mu != Some(t))
  }

  lemma MovesKeeps(s: State, s': State, t: nat)
    requires ThreadsOk(s) && Moves(s, s', t)
    ensures ThreadsOk(s')
  {
    forall u | u in s'.threads && u != t
      ensures ThreadOk(s', u)
    {
      assert u in s'.threads - {t};
      assert s'.threads[u] == (s'.threads - {t})[u] == (s.threads - {t})[u] == s.threads[u];
      assert ThreadOk(s, u);
    }
    if s'.lifecycle.Some? && s'.lifecycle != Some(t) {
      assert s'.lifecycle.value in s.threads - {t};
    }
    if s'.mu.Some? && s'.mu != Some(t) {
      assert s'.mu.value in s.threads - {t};
    }
  }

  lemma StartMoves(s: State, t: nat, a: Act)
    requires t in s.threads && ThreadOk(s, t) && StepStart(s, t, s.threads[t], a).Some?
    ensures Moves(s, StepStart(s, t, s.threads[t], a).value, t)
  {
  }

  lemma StopMoves(s: State, t: nat, a: Act)
    requires t in s.threads && ThreadOk(s, t) && StepStop(s, t, s.threads[t], a).Some?
    ensures Moves(s, StepStop(s, t, s.threads[t], a).value, t)
  {
  }

  lemma ShareMoves(s: State, t: nat, a: Act)
    requires t in s.threads && ThreadOk(s, t) && StepShare(s, t, s.threads[t], a).Some?
    ensures Moves(s, StepShare(s, t, s.threads[t], a).value, t)
  {
  }

  lemma LaunchMoves(s: State, t: nat, a: Act)
    requires t in s.threads && ThreadOk(s, t) && StepLaunch(s, t, s.threads[t], a).Some?
    ensures Moves(s, StepLaunch(s, t, s.threads[t], a).value, t)
  {
  }

  lemma StartKeeps(s: State, t: nat, a: Act)
    requires Inv(s) && t in s.threads && StepStart(s, t, s.threads[t], a).Some?
    ensures NodeOk(StepStart(s, t, s.threads[t], a).value)
    ensures DevicesOk(StepStart(s, t, s.threads[t], a).value)
  {
    var s' := StepStart(s, t, s.threads[t], a).value;
    var pc := s.threads[t];
    assert ThreadOk(s, t);
    if s.lifecycle == Some(t) {
      assert Owned(s) == DevsOf(pc);
      assert Owned(s') == DevsOf(s'.threads[t]);
    } else {
      assert Owned(s) == Owned(s') == {};
    }
  }

  lemma StopKeeps(s: State, t: nat, a: Act)
    requires Inv(s) && t in s.threads && StepStop(s, t, s.threads[t], a).Some?
    ensures NodeOk(StepStop(s, t, s.threads[t], a).value)
    ensures DevicesOk(StepStop(s, t, s.threads[t], a).value)
  {
    var s' := StepStop(s, t, s.threads[t], a).value;
    var pc := s.threads[t];
    assert ThreadOk(s, t);
    if s.lifecycle == Some(t) {
      assert Owned(s) == DevsOf(pc);
      assert s'.lifecycle.Some? ==> Owned(s') == DevsOf(s'.threads[t]);
    } else {
      assert Owned(s) == Owned(s') == {};
    }
  }

  lemma RedeemKeeps(s: State, t: nat, a: Act, s': State)
    requires Inv(s) && t in s.threads
    requires StepShare(s, t, s.threads[t], a) == Some(s') || StepLaunch(s, t, s.threads[t], a) == Some(s')
    ensures NodeOk(s') && DevicesOk(s')
  {
    assert ThreadOk(s, t);
    if s.lifecycle.Some? {
      var h := s.lifecycle.value;
      assert h != t && h in s.threads - {t};
      assert s'.threads[h] == (s'.threads - {t})[h] == (s.threads - {t})[h] == s.threads[h];
    }
    assert Owned(s') == Owned(s);
  }

  lemma StepMoves(s: State, t: nat, a: Act)
    requires Inv(s) && t in s.threads && Step(s, t, a).Some?
    ensures Moves(s, Step(s, t, a).value, t)
  {
    var pc := s.threads[t];
    assert ThreadOk(s, t);
    match Body(pc) {
      case InStart => StartMoves(s, t, a);
      case InStop => StopMoves(s, t, a);
      case InShare => ShareMoves(s, t, a);
      case InLaunch => LaunchMoves(s, t, a);
    }
  }

  /** Every step of every call keeps the invariant. */
  lemma StepKeeps(s: State, t: nat, a: Act)
    requires Inv(s) && Step(s, t, a).Some?
    ensures Inv(Step(s, t, a).value)
  {
    var s' := Step(s, t, a).value;
    if t !in s.threads {
      assert Moves(s, s', t);
      assert Owned(s') == Owned(s);
    } else {
      var pc := s.threads[t];
      StepMoves(s, t, a);
      match Body(pc) {
        case InStart => StartKeeps(s, t, a);
        case InStop => StopKeeps(s, t, a);
        case _ => RedeemKeeps(s, t, a, s');
      }
    }
    MovesKeeps(s, s', t);
  }

  // ---------------------------------------------------------------- every run

  function After(s: State, t: nat, a: Act): State {
    if Step(s, t, a).Some? then Step(s, t, a).value else s
  }

  lemma RunPrefix(s: State, sched: Schedule, k: nat)
    requires k < |sched|
    ensures Run(s, sched[..k + 1]) == After(Run(s, sched[..k]), sched[k].0, sched[k].1)
  {
    assert sched[..k + 1][..k] == sched[..k];
  }

  /** The invariant holds after every schedule of every set of calls. */
  lemma {:induction false} RunKeeps(sched: Schedule)
    ensures Inv(Run(Init, sched))
  {
    if sched == [] {
    } else {
      var pre := sched[..|sched| - 1];
      RunKeeps(pre);
      var (t, a) := sched[|sched| - 1];
      if Step(Run(Init, pre), t, a).Some? {
        StepKeeps(Run(Init, pre), t, a);
      }
    }
  }

  /** In every interleaving: waku.New has run at most once; two goroutines are
      never inside the library's Start together; while a teardown closes devices
      or stops the node under the lifecycle mutex, no session is running and no
      other goroutine is starting or stopping one, so what it touches is never a
      later session's; and a running session's devices are open. */
  lemma TeardownIsAlone(sched: Schedule)
    ensures var s := Run(Init, sched);
            && s.built <= 1
            && (s.running.Some? ==> s.running.value <= s.open)
            && (forall t :: t in s.threads && Exclusive(s.threads[t]) ==> s.running.None? && s.open == DevsOf(s.threads[t]))
            && (forall t, u :: t in s.threads && u in s.threads && t != u ==>
                  && !(InLibraryStart(s.threads[t]) && InLibraryStart(s.threads[u]))
                  && (Exclusive(s.threads[t]) ==> !HoldsLifecycle(s.threads[u])))
  {
    RunKeeps(sched);
    var s := Run(Init, sched);
    hide Run, ThreadOk;
    forall t | t in s.threads
      ensures Exclusive(s.threads[t]) ==> s.running.None? && s.open == DevsOf(s.threads[t])
    {
      AloneIn(s, t);
    }
    forall t, u | t in s.threads && u in s.threads && t != u
      ensures !(InLibraryStart(s.threads[t]) && InLibraryStart(s.threads[u]))
      ensures Exclusive(s.threads[t]) ==> !HoldsLifecycle(s.threads[u])
    {
      PairApart(s, t, u);
    }
  }

  predicate InLibraryStart(pc: Pc) {
    pc.StartLib? || pc.Launch?
  }

  lemma AloneIn(s: State, t: nat)
    requires Inv(s) && t in s.threads
    ensures Exclusive(s.threads[t]) ==> s.running.None? && s.open == DevsOf(s.threads[t])
  {
    assert ThreadOk(s, t);
  }

  lemma PairApart(s: State, t: nat, u: nat)
    requires Inv(s) && t in s.threads && u in s.threads && t != u
    ensures !(InLibraryStart(s.threads[t]) && InLibraryStart(s.threads[u]))
    ensures Exclusive(s.threads[t]) ==> !HoldsLifecycle(s.threads[u])
  {
    assert ThreadOk(s, t) && ThreadOk(s, u);
  }

  lemma StarterKnown(s: State, t: nat)
    requires Inv(s) && t in s.threads
    ensures Starting(s) ==> s.running.None? && s.node.Some?
    ensures s.threads[t].StartMeshes? ==> Starting(s)
    ensures s.threads[t].NodeLib? || s.threads[t].StartUndo? || s.threads[t].StartClose? ==> !Wanted(s)
  {
    assert ThreadOk(s, t);
    if Starting(s) {
      assert ThreadOk(s, s.lifecycle.value);
    }
  }

  /** Whoever starts a session is still starting it after a step of anybody else. */
  lemma StarterStays(s: State, t: nat, a: Act)
    requires Inv(s) && t in s.threads && Step(s, t, a).Some? && s.lifecycle != Some(t)
    ensures var s' := Step(s, t, a).value; s'.lifecycle != Some(t) ==> (Starting(s') <==> Starting(s))
  {
    StepMoves(s, t, a);
    var s' := Step(s, t, a).value;
    if s.lifecycle.Some? {
      var h := s.lifecycle.value;
      assert h in s.threads - {t};
      assert s'.threads[h] == (s'.threads - {t})[h] == (s.threads - {t})[h] == s.threads[h];
    }
  }

  lemma HealthStart(s: State, t: nat, a: Act)
    requires Inv(s) && Healthy(s) && t in s.threads && Body(s.threads[t]) == InStart && Step(s, t, a).Some?
    ensures Healthy(Step(s, t, a).value)
  {
    StarterKnown(s, t);
    assert ThreadOk(s, t);
  }

  lemma HealthStop(s: State, t: nat, a: Act)
    requires Inv(s) && Healthy(s) && t in s.threads && Body(s.threads[t]) == InStop && Step(s, t, a).Some?
    ensures Healthy(Step(s, t, a).value)
  {
    StarterKnown(s, t);
    assert ThreadOk(s, t);
  }

  lemma HealthRedeem(s: State, t: nat, a: Act)
    requires Inv(s) && Healthy(s) && t in s.threads && Redeeming(s.threads[t]) && Step(s, t, a).Some?
    ensures Healthy(Step(s, t, a).value) <==> !Harmful(s, t, a)
  {
    assert ThreadOk(s, t);
    StarterStays(s, t, a);
    StarterKnown(s, t);
  }

  /** From a state where every session that needs the node has it, one step
      leaves it so unless that step is the unlocked cleanup of a redemption
      stopping the node under a session that needs it, and then it never does. */
  lemma HealthExact(s: State, t: nat, a: Act)
    requires Inv(s) && Healthy(s) && Step(s, t, a).Some?
    ensures Healthy(Step(s, t, a).value) <==> !Harmful(s, t, a)
  {
    if t in s.threads {
      match Body(s.threads[t]) {
        case InStart => HealthStart(s, t, a);
        case InStop => HealthStop(s, t, a);
        case _ => HealthRedeem(s, t, a);
      }
    }
  }

  /** No step of the schedule is a redemption's cleanup stopping a node in use. */
  ghost predicate HarmFree(sched: Schedule) {
    forall k :: 0 <= k < |sched| ==>
      !(Step(Run(Init, sched[..k]), sched[k].0, sched[k].1).Some? && Harmful(Run(Init, sched[..k]), sched[k].0, sched[k].1))
  }

  lemma {:induction false} HarmFreeIsHealthy(sched: Schedule)
    requires HarmFree(sched)
    ensures Healthy(Run(Init, sched))
  {
    if sched == [] {
    } else {
      var n := |sched| - 1;
      var pre := sched[..n];
      forall k | 0 <= k < n
        ensures !(Step(Run(Init, pre[..k]), pre[k].0, pre[k].1).Some? && Harmful(Run(Init, pre[..k]), pre[k].0, pre[k].1))
      {
        assert pre[..k] == sched[..k] && pre[k] == sched[k];
      }
      HarmFreeIsHealthy(pre);
      RunKeeps(pre);
      if Step(Run(Init, pre), sched[n].0, sched[n].1).Some? {
        HealthExact(Run(Init, pre), sched[n].0, sched[n].1);
      }
    }
  }

  /** Whatever calls are mixed and however they interleave: every running session
      has its node started at every moment exactly when no redemption's cleanup
      stops the node while a session needs it. That cleanup is the only statement
      in the file that can take a session's node away. */
  lemma HealthyThroughout(sched: Schedule)
    ensures (forall k :: 0 <= k <= |sched| ==> Healthy(Run(Init, sched[..k]))) <==> HarmFree(sched)
  {
    if HarmFree(sched) {
      forall k | 0 <= k <= |sched|
        ensures Healthy(Run(Init, sched[..k]))
      {
        forall j | 0 <= j < k
          ensures sched[..k][..j] == sched[..j] && sched[..k][j] == sched[j]
        {
        }
        HarmFreeIsHealthy(sched[..k]);
      }
    } else {
      var k :| 0 <= k < |sched| && Step(Run(Init, sched[..k]), sched[k].0, sched[k].1).Some? &&
               Harmful(Run(Init, sched[..k]), sched[k].0, sched[k].1);
      RunKeeps(sched[..k]);
      RunPrefix(Init, sched, k);
      if Healthy(Run(Init, sched[..k])) {
        HealthExact(Run(Init, sched[..k]), sched[k].0, sched[k].1);
        assert !Healthy(Run(Init, sched[..k + 1]));
      }
    }
  }

  lemma {:induction false} NobodyRedeems(sched: Schedule)
    requires forall k :: 0 <= k < |sched| ==> sched[k].1 != Begin(CallRedeem)
    ensures forall t :: t in Run(Init, sched).threads ==> !Redeeming(Run(Init, sched).threads[t])
  {
    if sched == [] {
    } else {
      var n := |sched| - 1;
      NobodyRedeems(sched[..n]);
      var (t, a) := sched[n];
      var s := Run(Init, sched[..n]);
      RunKeeps(sched[..n]);
      if Step(s, t, a).Some? {
        NobodyBegins(s, t, a);
      }
      hide Step, Redeeming;
    }
  }

  lemma NobodyBegins(s: State, t: nat, a: Act)
    requires Inv(s) && Step(s, t, a).Some? && a != Begin(CallRedeem)
    requires forall u :: u in s.threads ==> !Redeeming(s.threads[u])
    ensures forall u :: u in Step(s, t, a).value.threads ==> !Redeeming(Step(s, t, a).value.threads[u])
  {
    var s' := Step(s, t, a).value;
    if t in s.threads {
      StepMoves(s, t, a);
      assert !Redeeming(s.threads[t]);
      forall u | u in s'.threads && u != t
        ensures !Redeeming(s'.threads[u])
      {
        assert u in s'.threads - {t};
        assert s'.threads[u] == (s'.threads - {t})[u] == (s.threads - {t})[u] == s.threads[u];
      }
    }
  }

  /** Any number of Start, Stop, StopForRestart and StopNode calls, in any
      interleaving: a running session's node is started. */
  lemma SessionsKeepTheirNode(sched: Schedule)
    requires forall k :: 0 <= k < |sched| ==> sched[k].1 != Begin(CallRedeem)
    ensures Run(Init, sched).running.Some? ==> Run(Init, sched).node.Some? && Run(Init, sched).node.value in Run(Init, sched).started
  {
    forall k | 0 <= k < |sched|
      ensures !Harmful(Run(Init, sched[..k]), sched[k].0, sched[k].1)
    {
      NobodyRedeems(sched[..k]);
    }
    HarmFreeIsHealthy(sched);
  }

  ghost predicate Reachable(s: State) {
    exists sched :: Run(Init, sched) == s
  }

  lemma Advance(s: State, t: nat, a: Act) returns (s': State)
    requires Reachable(s)
    ensures Reachable(s') && s' == After(s, t, a)
  {
    s' := After(s, t, a);
    var sched :| Run(Init, sched) == s;
    assert (sched + [(t, a)])[..|sched|] == sched;
    assert Run(Init, sched + [(t, a)]) == s';
  }

  lemma RedemptionArrives() returns (s: State)
    ensures Reachable(s) && s.threads.Keys == {1} && s.threads[1] == RedeemMu
    ensures s == Init.(threads := s.threads)
  {
    assert Run(Init, []) == Init;
    s := Advance(Init, 1, Begin(CallRedeem));
  }

  /** An invite is redeemed with nothing running. */
  lemma RedemptionBegins() returns (s: State)
    ensures Reachable(s) && s.threads.Keys == {1} && s.threads[1] == ShareMu
    ensures s == Init.(threads := s.threads)
  {
    s := RedemptionArrives();
    s := Advance(s, 1, Go);
    assert s.mu == Some(1) && s.threads[1] == RedeemRead;
    s := Advance(s, 1, Go);
  }

  /** It builds the process's node. */
  lemma RedemptionShares() returns (s: State)
    ensures Reachable(s) && s.threads.Keys == {1} && s.threads[1] == LaunchMu(0)
    ensures s == Init.(node := Some(0), built := 1, threads := s.threads)
  {
    s := RedemptionBegins();
    s := Advance(s, 1, Go);
    assert s.mu == Some(1) && s.threads[1] == Share;
    s := Advance(s, 1, Go);
  }

  /** It starts the node under mu and talks to its inviter. */
  lemma RedemptionLaunches() returns (s: State)
    ensures Reachable(s) && s.threads.Keys == {1} && s.threads[1] == Exchange(0)
    ensures s == Init.(node := Some(0), built := 1, started := {0}, threads := s.threads)
  {
    s := RedemptionShares();
    s := Advance(s, 1, Go);
    assert s.mu == Some(1) && s.threads[1] == Launch(0);
    s := Advance(s, 1, Go);
  }

  /** Its cleanup then finds the mesh idle and is about to stop the node. */
  lemma RedemptionIdle() returns (s: State)
    ensures Reachable(s) && s.threads.Keys == {1} && s.threads[1] == LateStop(0)
    ensures s == Init.(node := Some(0), built := 1, started := {0}, threads := s.threads)
  {
    s := RedemptionLaunches();
    s := Advance(s, 1, Go);
    assert s.threads[1] == IdleMu(0);
    s := Advance(s, 1, Go);
    assert s.threads[1] == IdleCheck(0);
    s := Advance(s, 1, Go);
  }

  /** A connect arrives and opens its devices. */
  lemma ConnectArrives() returns (s: State)
    ensures Reachable(s) && s.threads.Keys == {1, 2} && s.threads[1] == LateStop(0) && s.threads[2] == StartOpen({0})
    ensures s == State(s.threads, Some(2), Some(2), None, Some(0), 1, {0}, {0}, 1)
  {
    s := RedemptionIdle();
    s := Advance(s, 2, Begin(CallStart));
    s := Advance(s, 2, Go);
    assert s.threads[1] == LateStop(0) && s.threads[2] == StartMu;
    s := Advance(s, 2, Go);
    assert s.threads[1] == LateStop(0) && s.threads[2] == StartCheck;
    s := Advance(s, 2, Go);
  }

  /** The connect finds the node built. */
  lemma ConnectFindsNode() returns (s: State)
    ensures Reachable(s) && s.threads.Keys == {1, 2} && s.threads[1] == LateStop(0) && s.threads[2] == StartLib({0})
    ensures s == State(s.threads, Some(2), Some(2), None, Some(0), 1, {0}, {0}, 1)
  {
    s := ConnectArrives();
    s := Advance(s, 2, Go);
    assert s.threads[1] == LateStop(0) && s.threads[2] == StartNode({0});
    s := Advance(s, 2, Go);
  }

  /** Its session is running. */
  lemma ConnectRuns() returns (s: State)
    ensures Reachable(s) && s.threads.Keys == {1, 2} && s.threads[1] == LateStop(0) && s.running.Some? && s.node == Some(0)
  {
    s := ConnectFindsNode();
    s := Advance(s, 2, Go);
    assert s.threads[1] == LateStop(0) && s.threads[2] == StartMeshes({0});
    s := Advance(s, 2, Go);
  }

  /** The interleaving that takes a session's node away: the cleanup of a
      redemption has found the mesh idle, a connect starts a session, and the
      cleanup stops the node under it. */
  lemma LateStopHappens() returns (s: State)
    ensures Reachable(s) && s.running.Some? && s.node.Some? && s.node.value !in s.started
  {
    s := ConnectRuns();
    s := Advance(s, 1, Go);
  }
}

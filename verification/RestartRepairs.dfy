/** The rendezvous watchdog over the ticks of one process: what came before a restart
    (cmd/shrooms/daemon.go, watchRendezvous). */
module RestartRepairs {
  import opened Options
  import opened Restarts

  /** The two conditions with a cheap repair. */
  datatype Trouble = Deafness | Silence

  predicate Sees(t: Trouble, i: Input) {
    match t
    case Deafness => AnyDeaf(i.sights)
    case Silence => AnySilent(i.sights)
  }

  function Since(t: Trouble, w: Rv): Option<int> {
    match t
    case Deafness => w.deafSince
    case Silence => w.silentSince
  }

  function CauseOf(t: Trouble): Cause {
    match t
    case Deafness => Deafened
    case Silence => Silent
  }

  /** The watchdog after some ticks. */
  function Ticks(w: Rv, ins: seq<Input>): Rv
    decreases |ins|
  {
    if ins == [] then w else Tick(Ticks(w, ins[..|ins| - 1]), ins[|ins| - 1]).0
  }

  /** What the n-th tick did. */
  function OutAt(w: Rv, ins: seq<Input>, n: nat): Out
    requires n < |ins|
  {
    Tick(Ticks(w, ins[..n]), ins[n]).1
  }

  /** The j-th tick rejoined the gossip mesh. */
  predicate Regrafts(w: Rv, ins: seq<Input>, j: nat, at: int) {
    j < |ins| && OutAt(w, ins, j) == Regraft && ins[j].now == at
  }

  /** From the k-th tick to before the n-th each tick saw the trouble. */
  predicate SeesFrom(t: Trouble, ins: seq<Input>, k: nat, n: nat, at: int) {
    k < n <= |ins| && ins[k].now == at && forall m :: k <= m < n ==> Sees(t, ins[m])
  }

  /** One tick sets these times to its own or leaves them. */
  lemma TickTimes(w: Rv, i: Input, t: Trouble)
    ensures var (w', out) := Tick(w, i);
            && (w'.lastRegraft != w.lastRegraft ==> out == Regraft && w'.lastRegraft == Some(i.now))
            && (Since(t, w').Some? ==> Sees(t, i) && (Since(t, w') == Since(t, w) || Since(t, w') == Some(i.now)))
  {
    hide AnyDeaf, AnySilent, AnyOk;
  }

  lemma TicksNext(w: Rv, ins: seq<Input>, m: nat)
    requires m < |ins|
    ensures Ticks(w, ins[..m + 1]) == Tick(Ticks(w, ins[..m]), ins[m]).0
  {
    assert ins[..m + 1][..m] == ins[..m];
  }

  /** The times the watchdog holds are those of ticks it made. */
  lemma {:induction false} RegraftIsATick(w0: Rv, ins: seq<Input>, n: nat)
    requires n <= |ins| && w0.lastRegraft.None?
    ensures var w := Ticks(w0, ins[..n]);
            w.lastRegraft.Some? ==> exists j: nat :: j < n && Regrafts(w0, ins, j, w.lastRegraft.value)
  {
    if n == 0 {
      assert ins[..0] == [];
    } else {
      var m := n - 1;
      RegraftIsATick(w0, ins, m);
      TicksNext(w0, ins, m);
      var v, w := Ticks(w0, ins[..m]), Ticks(w0, ins[..n]);
      TickTimes(v, ins[m], Deafness);
      hide Tick, Ticks;
      if w.lastRegraft.Some? && w.lastRegraft != v.lastRegraft {
        assert Regrafts(w0, ins, m, w.lastRegraft.value);
      }
    }
  }

  lemma SeesNow(t: Trouble, ins: seq<Input>, m: nat)
    requires m < |ins| && Sees(t, ins[m])
    ensures SeesFrom(t, ins, m, m + 1, ins[m].now)
  {
    hide Sees;
  }

  lemma SeesOn(t: Trouble, ins: seq<Input>, k: nat, m: nat, at: int)
    requires m < |ins| && SeesFrom(t, ins, k, m, at) && Sees(t, ins[m])
    ensures SeesFrom(t, ins, k, m + 1, at)
  {
    hide Sees;
  }

  lemma {:induction false} SinceIsATick(t: Trouble, w0: Rv, ins: seq<Input>, n: nat)
    requires n <= |ins| && Since(t, w0).None?
    ensures var s := Since(t, Ticks(w0, ins[..n]));
            s.Some? ==> exists k: nat :: SeesFrom(t, ins, k, n, s.value)
  {
    if n == 0 {
      assert ins[..0] == [];
    } else {
      var m := n - 1;
      SinceIsATick(t, w0, ins, m);
      TicksNext(w0, ins, m);
      var v, w := Since(t, Ticks(w0, ins[..m])), Since(t, Ticks(w0, ins[..n]));
      TickTimes(Ticks(w0, ins[..m]), ins[m], t);
      hide Tick, Ticks, Sees, Since, SeesFrom;
      if w.Some? {
        SeesNow(t, ins, m);
        if w == v {
          var k: nat :| SeesFrom(t, ins, k, m, v.value);
          SeesOn(t, ins, k, m, v.value);
        }
      }
    }
  }

  predicate InOrder(ins: seq<Input>) {
    forall a, b :: 0 <= a < b < |ins| ==> ins[a].now <= ins[b].now
  }

  /** Tick k, two minutes before tick n, began an unbroken run of ticks that saw the
      trouble; tick j, after it and less than 45 seconds before n, rejoined the gossip
      mesh. */
  predicate RepairedFirst(t: Trouble, w0: Rv, ins: seq<Input>, n: nat, j: nat, k: nat) {
    && j < n < |ins| && k < n
    && Regrafts(w0, ins, j, ins[j].now) && ins[n].now - ins[j].now < RegraftEvery
    && SeesFrom(t, ins, k, n + 1, ins[k].now) && ins[k].now + DeafConfirm <= ins[n].now
    && ins[k].now < ins[j].now && (InOrder(ins) ==> k < j)
  }

  /** In every process, at arbitrary tick times: before a restart for a deaf or a silent
      plane a tick of the same process rejoined the gossip mesh, less than 45 seconds
      earlier and after the condition had begun; and every tick from two minutes earlier
      on had seen the condition. */
  lemma RestartsAreRepairedFirst(t: Trouble, now: int, underlay: int, history: Log, ins: seq<Input>, n: nat)
    requires n < |ins| && OutAt(Fresh(now, underlay, history), ins, n) == Restart(CauseOf(t))
    ensures exists j: nat, k: nat :: RepairedFirst(t, Fresh(now, underlay, history), ins, n, j, k)
  {
    var w0 := Fresh(now, underlay, history);
    var w := Ticks(w0, ins[..n]);
    RepairFirst(w, ins[n]);
    assert Sees(t, ins[n]);
    RegraftIsATick(w0, ins, n);
    SinceIsATick(t, w0, ins, n);
    var since := Since(t, w).value;
    assert since < w.lastRegraft.value && since + DeafConfirm <= ins[n].now;
    hide Tick, Ticks, Sees, Since, OutAt;
    var j: nat :| j < n && Regrafts(w0, ins, j, w.lastRegraft.value);
    var k: nat :| SeesFrom(t, ins, k, n, since);
    SeesOn(t, ins, k, n, since);
    assert RepairedFirst(t, w0, ins, n, j, k);
  }
}

/** The objects and loops behind the mapper and the watchdog: one pass of keepMapped,
    nudgeRemap (cmd/shrooms/portmap.go) and moveEphemeralPorts (cmd/shrooms/instance.go). */
module PortmapLoops {
  import opened Options
  import opened Portmap

  /** One running mesh. `remap` is None until a mapper runs, then whether its channel
      holds a nudge; `shown` is what the mesh announces, nil as None. */
  class Instance {
    var listen: nat
    var remap: Option<bool>
    var shown: Option<Endpoint>
    ghost var request: Request
    const movable: bool

    constructor (listen: nat, movable: bool)
      ensures this.listen == listen && this.movable == movable && remap.None? && shown.None?
    {
      this.listen := listen;
      this.movable := movable;
      remap := None;
      shown := None;
    }
  }

  class Mapper {
    const inst: Instance
    var port: nat
    var want: nat

    constructor (inst: Instance)
      ensures this.inst == inst && port == want == inst.listen
    {
      this.inst := inst;
      port := inst.listen;
      want := inst.listen;
    }

    /** The state of the step system, for what the objects do not hold. */
    ghost function View(pc: Pc, dog: Dog, nudges: nat, changes: nat, drained: nat): State
      reads this, inst
    {
      State(inst.listen, inst.remap == Some(true),
            if inst.shown.Some? then Some(Shown(inst.shown.value, inst.request)) else None,
            pc, port, want, dog, nudges, changes, drained)
    }

    /** From the top of the loop to the select: with no step of the watchdog's between,
        these are the four steps of the mapper. */
    method Renew(contested: bool, answer: Answer, ghost dog: Dog, ghost nudges: nat, ghost changes: nat, ghost drained: nat)
      returns (wait: real)
      requires contested ==> inst.shown.Some?
      modifies this, inst
      ensures var s := old(View(Top, dog, nudges, changes, drained));
              var es := [ReadPort, Check(contested), Ask, Answered(answer)];
              Runs(s, es) && View(Selecting, dog, nudges, changes, drained) == After(s, es)
      ensures wait == WaitFor(answer)
      ensures inst.listen == old(inst.listen) && inst.remap == old(inst.remap)
    {
      hide Runs, After, AfterAnswer, ShownAfter, WaitFor;
      ghost var s := View(Top, dog, nudges, changes, drained);
      if inst.listen != port {
        port := inst.listen;
        want := inst.listen;
      }
      assert View(Read, dog, nudges, changes, drained) == Step(s, ReadPort);
      if contested {
        var next := (want + 1) % U16;
        if next < port || next == 0 {
          next := (port + 1) % U16;
        }
        want := next;
      }
      ghost var s2 := Step(Step(s, ReadPort), Check(contested));
      assert View(Checked, dog, nudges, changes, drained) == s2;
      ghost var asked := Request(port, want, nudges, changes);
      wait := TakeAnswer(answer, asked);
      assert View(Selecting, dog, nudges, changes, drained) == Step(Step(s2, Ask), Answered(answer));
      FourSteps(s, ReadPort, Check(contested), Ask, Answered(answer));
    }

    /** What the loop makes of the router's answer. */
    method TakeAnswer(answer: Answer, ghost asked: Request) returns (wait: real)
      modifies this`want, inst`shown, inst`request
      ensures wait == WaitFor(answer) && want == AfterAnswer(old(want), answer)
      ensures ShownAfter(asked, answer) == if inst.shown.Some? then Some(Shown(inst.shown.value, inst.request)) else None
    {
      hide Usable;
      wait := MapRetry as real;
      inst.shown := None;
      if answer.Granted? {
        wait := answer.lifetime as real / 2.0;
        if wait < Minute as real {
          wait := Minute as real;
        }
        if Usable(answer.external.addr) {
          inst.shown := Some(answer.external);
          inst.request := asked;
          want := answer.external.port;
        }
      }
    }

    /** The select's other case: the nudge taken, and the port read again. */
    method Nudged(ghost dog: Dog, ghost nudges: nat, ghost changes: nat, ghost drained: nat)
      requires inst.remap == Some(true)
      modifies this, inst
      ensures var s := old(View(Selecting, dog, nudges, changes, drained));
              Runs(s, [TakeNudge, Reread]) && View(Top, dog, nudges, changes, nudges) == After(s, [TakeNudge, Reread])
    {
      inst.remap := Some(false);
      inst.shown := None;
      port := inst.listen;
      want := port;
      assert [TakeNudge, Reread][1..] == [Reread];
    }
  }

  /** Every mapper's channel holds a nudge afterwards, and nothing else has changed. */
  method NudgeRemap(instances: seq<Instance?>)
    modifies set i: nat | i < |instances| && instances[i] != null :: instances[i]
    ensures forall i: nat :: i < |instances| && instances[i] != null ==>
              instances[i].remap == if old(instances[i].remap).Some? then Some(true) else None
    ensures forall i: nat :: i < |instances| && instances[i] != null ==>
              instances[i].listen == old(instances[i].listen) && instances[i].shown == old(instances[i].shown)
              && instances[i].request == old(instances[i].request)
  {
    var k := 0;
    while k < |instances|
      invariant 0 <= k <= |instances|
      invariant forall i: nat :: i < k && instances[i] != null ==>
                  instances[i].remap == if old(instances[i].remap).Some? then Some(true) else None
      invariant forall i: nat :: i < |instances| && instances[i] != null ==>
                  instances[i].remap == old(instances[i].remap) || (old(instances[i].remap).Some? && instances[i].remap == Some(true))
      invariant forall i: nat :: i < |instances| && instances[i] != null ==>
                  instances[i].listen == old(instances[i].listen) && instances[i].shown == old(instances[i].shown)
                  && instances[i].request == old(instances[i].request)
    {
      var inst := instances[k];
      if inst != null && inst.remap.Some? {
        inst.remap := Some(true);
      }
      k := k + 1;
    }
  }

  /** Each movable mesh moves to the port its device bound, where it bound one; `bound`
      holds what each device would answer. */
  method MoveEphemeralPorts(instances: seq<Instance?>, bound: seq<Option<nat>>)
    requires |bound| == |instances|
    requires forall i: nat, j: nat :: i < j < |instances| && instances[i] != null ==> instances[i] != instances[j]
    modifies set i: nat | i < |instances| && instances[i] != null :: instances[i]
    ensures forall i: nat :: i < |instances| && instances[i] != null ==>
              instances[i].listen == if instances[i].movable && bound[i].Some? then bound[i].value else old(instances[i].listen)
    ensures forall i: nat :: i < |instances| && instances[i] != null ==>
              instances[i].remap == old(instances[i].remap) && instances[i].shown == old(instances[i].shown)
              && instances[i].request == old(instances[i].request)
  {
    var k := 0;
    while k < |instances|
      invariant 0 <= k <= |instances|
      invariant forall i: nat :: i < k && instances[i] != null ==>
                  instances[i].listen == if instances[i].movable && bound[i].Some? then bound[i].value else old(instances[i].listen)
      invariant forall i: nat :: k <= i < |instances| && instances[i] != null ==> instances[i].listen == old(instances[i].listen)
      invariant forall i: nat :: i < |instances| && instances[i] != null ==>
                  instances[i].remap == old(instances[i].remap) && instances[i].shown == old(instances[i].shown)
                  && instances[i].request == old(instances[i].request)
    {
      var inst := instances[k];
      if inst != null && inst.movable && bound[k].Some? {
        inst.listen := bound[k].value;
      }
      k := k + 1;
    }
  }
}

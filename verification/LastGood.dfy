/** The last config that started (cmd/shrooms/lastgood.go and the start path of
    cmd/shrooms/daemon.go): the config file, the last good copy and the refusal
    marker, over edits, starts, failures and crashes between file operations.

    `loads` says which contents state.LoadConfig accepts. The marker holds a
    SHA-256 of contents; it is modelled as the contents, so two contents with one
    sum are taken to be the same. */
module LastGood {
  import opened Options

  type Bytes = string

  datatype Files = Files(cfg: Option<Bytes>, good: Option<Bytes>, refused: Option<Bytes>)

  /** What os.ReadFile leaves in raw. */
  function Raw(f: Option<Bytes>): Bytes {
    if f.Some? then f.value else []
  }

  predicate Loads(loads: Bytes -> bool, f: Option<Bytes>) {
    f.Some? && loads(f.value)
  }

  // ---------------------------------------------------------------- one start, uninterrupted

  /** loadConfigOrLastGood: the contents used, what was read from the config file,
      and whether the copy is standing in for it; or the config's own error. */
  datatype Loaded = Refused | Use(conf: Bytes, raw: Bytes, fallback: bool)

  function Load(loads: Bytes -> bool, f: Files): (Files, Loaded) {
    var raw := Raw(f.cfg);
    if Loads(loads, f.cfg) && f.refused != Some(raw) then (f.(refused := None), Use(raw, raw, false))
    else if Loads(loads, f.good) then (f, Use(f.good.value, raw, true))
    else if Loads(loads, f.cfg) then (f, Use(raw, raw, false))
    else (f, Refused)
  }

  function NoteRefused(f: Files, raw: Bytes): Files {
    if f.good.None? || raw == [] || f.good.value == raw then f else f.(refused := Some(raw))
  }

  function SaveLastGood(f: Files, raw: Bytes): Files {
    if raw == [] then f else f.(refused := None, good := Some(raw))
  }

  /** A whole start. boots says which contents start every mesh. The result is the
      contents the daemon runs on, or None when it exits. */
  function Start(loads: Bytes -> bool, boots: Bytes -> bool, f: Files): (Files, Option<Bytes>) {
    var (f', l) := Load(loads, f);
    match l
    case Refused => (f', None)
    case Use(conf, raw, fallback) =>
      if boots(conf) then (if fallback then f' else SaveLastGood(f', raw), Some(conf))
      else (if fallback then f' else NoteRefused(f', raw), None)
  }

  /** The daemon's files, and the functions of lastgood.go on them. */
  class Store {
    var cfg: Option<Bytes>
    var good: Option<Bytes>
    var refused: Option<Bytes>

    ghost function View(): Files
      reads this
    {
      Files(cfg, good, refused)
    }

    method LoadConfigOrLastGood(loads: Bytes -> bool) returns (l: Loaded)
      modifies this`refused
      ensures (View(), l) == Load(loads, old(View()))
    {
      var raw := Raw(cfg);
      var ok := Loads(loads, cfg);
      var reason := false;
      if !ok {
        reason := true;
      } else if refused.Some? {
        if refused.value == raw {
          reason := true;
        } else {
          refused := None;
        }
      }
      if !reason {
        return Use(raw, raw, false);
      }
      if !Loads(loads, good) {
        if !ok { return Refused; }
        return Use(raw, raw, false);
      }
      return Use(good.value, raw, true);
    }

    method Note(raw: Bytes) returns (did: bool)
      modifies this`refused
      ensures View() == NoteRefused(old(View()), raw)
      ensures did ==> refused == Some(raw) && good.Some? && good.value != raw && raw != []
      ensures !did ==> refused == old(refused) && (good.None? || good.value == raw || raw == [])
    {
      if good.None? || |raw| == 0 || good.value == raw { return false; }
      refused := Some(raw);
      return true;
    }

    method Save(raw: Bytes)
      modifies this`refused, this`good
      ensures View() == SaveLastGood(old(View()), raw)
    {
      if |raw| == 0 { return; }
      refused := None;
      if good.Some? && good.value == raw { return; }
      good := Some(raw);
    }

    /** cmdDaemon up to the point where every mesh has started or one has not. */
    method StartDaemon(loads: Bytes -> bool, boots: Bytes -> bool) returns (up: Option<Bytes>)
      modifies this
      ensures (View(), up) == Start(loads, boots, old(View()))
      ensures cfg == old(cfg)
    {
      var l := LoadConfigOrLastGood(loads);
      if l.Refused? { return None; }
      if !boots(l.conf) {
        if !l.fallback {
          var _ := Note(l.raw);
        }
        return None;
      }
      if !l.fallback {
        Save(l.raw);
      }
      return Some(l.conf);
    }
  }

  // ---------------------------------------------------------------- recovery

  /** The files after n starts with no edit in between. */
  function Starts(loads: Bytes -> bool, boots: Bytes -> bool, f: Files, n: nat): Files {
    if n == 0 then f else Start(loads, boots, Starts(loads, boots, f, n - 1)).0
  }

  /** The config in place does not load, or loads and does not start. */
  predicate Broken(loads: Bytes -> bool, boots: Bytes -> bool, f: Files) {
    !(Loads(loads, f.cfg) && boots(f.cfg.value))
  }

  /** A last good copy that differs from it, loads and still starts. */
  predicate Spare(loads: Bytes -> bool, boots: Bytes -> bool, f: Files) {
    Loads(loads, f.good) && boots(f.good.value) && f.good != f.cfg
  }

  /** After any edit that breaks the config, with a good copy at hand: at most the
      first start fails, none does when the config is refused at load, every later
      one runs on the copy, and neither the config nor the copy is changed, for as
      long as the config is not edited. An empty file never loads: it holds no
      network key. */
  lemma {:induction false} OneFailedStartAtMost(loads: Bytes -> bool, boots: Bytes -> bool, f: Files, n: nat)
    requires Broken(loads, boots, f) && Spare(loads, boots, f) && !loads([])
    ensures var f' := Starts(loads, boots, f, n);
            && f'.cfg == f.cfg && f'.good == f.good
            && (n >= 1 || !Loads(loads, f.cfg) || f.refused == f.cfg ==> Start(loads, boots, f').1 == f.good)
            && (n >= 1 && Loads(loads, f.cfg) ==> f'.refused == f.cfg)
  {
    if n == 0 {
    } else {
      OneFailedStartAtMost(loads, boots, f, n - 1);
    }
  }

  /** A refused config with no usable copy beside it is tried again, and runs if it now starts:
      there is nothing to fall back on. */
  lemma NoSpareTriesAgain(loads: Bytes -> bool, boots: Bytes -> bool, f: Files)
    requires Loads(loads, f.cfg) && f.refused == f.cfg && !Loads(loads, f.good) && f.cfg.value != []
    ensures boots(f.cfg.value) ==> Start(loads, boots, f) == (Files(f.cfg, f.cfg, None), f.cfg)
    ensures !boots(f.cfg.value) ==> Start(loads, boots, f).1.None? && Start(loads, boots, f).0.cfg == f.cfg && Start(loads, boots, f).0.good == f.good
  {
  }

  /** What any start runs on, if it runs: the config, where that loads and is not refused or
      nothing can stand in for it; or the copy, where it loads. It exits exactly when that
      does not start, or there is neither. */
  lemma StartExact(loads: Bytes -> bool, boots: Bytes -> bool, f: Files)
    ensures var up := Start(loads, boots, f).1;
            var own := Loads(loads, f.cfg) && (f.refused != f.cfg || !Loads(loads, f.good));
            var spare := Loads(loads, f.good) && !own;
            && (own ==> up == if boots(f.cfg.value) then f.cfg else None)
            && (spare ==> up == if boots(f.good.value) then f.good else None)
            && (!own && !spare ==> up.None?)
    ensures Start(loads, boots, f).0.cfg == f.cfg
    ensures Start(loads, boots, f).0.good != f.good ==> Start(loads, boots, f).0.good == f.cfg && Start(loads, boots, f).1 == f.cfg
  {
  }

  /** And the fallback ends with the fix: contents that load, start and are not the
      refused ones are run at once, become the copy and clear the marker. */
  lemma FixTakesEffect(loads: Bytes -> bool, boots: Bytes -> bool, f: Files)
    requires Loads(loads, f.cfg) && boots(f.cfg.value) && f.refused != f.cfg && f.cfg.value != []
    ensures Start(loads, boots, f) == (Files(f.cfg, f.cfg, None), f.cfg)
  {
  }

  // ---------------------------------------------------------------- file steps, crashes and edits

  /** Where a start is, between two operations on the files. */
  datatype Phase =
    | Down
    | Reading
    | Parsing(raw: Bytes)
    | Comparing(raw: Bytes, conf: Bytes)
    | Clearing(raw: Bytes, conf: Bytes)
    | Falling(raw: Bytes, own: Option<Bytes>)
    | Booting(raw: Bytes, conf: Bytes, fallback: bool)
    | Noting(raw: Bytes)
    | Marking(raw: Bytes)
    | Unmarking(raw: Bytes, conf: Bytes)
    | Saving(raw: Bytes, conf: Bytes)
    | Running(conf: Bytes)

  /** started: the contents that have started cleanly as the config itself. */
  datatype State = State(files: Files, phase: Phase, started: set<Bytes>)

  /** An edit of the config by a person, a start, one file operation of the daemon
      (ok is how it, or the meshes, turned out), or the end of the process at any
      point. */
  datatype Event = Edit(cfg: Option<Bytes>) | Launch | Go(ok: bool) | Crash

  function StepGo(loads: Bytes -> bool, s: State, ok: bool): State {
    var f := s.files;
    match s.phase
    case Down => s
    case Reading => s.(phase := Parsing(Raw(f.cfg)))
    case Parsing(raw) => // state.LoadConfig reads the file again
      s.(phase := if Loads(loads, f.cfg) then Comparing(raw, f.cfg.value) else Falling(raw, None))
    case Comparing(raw, conf) =>
      s.(phase := if f.refused.None? then Booting(raw, conf, false)
                  else if f.refused.value == raw then Falling(raw, Some(conf))
                  else Clearing(raw, conf))
    case Clearing(raw, conf) =>
      s.(files := if ok then f.(refused := None) else f, phase := Booting(raw, conf, false))
    case Falling(raw, own) =>
      s.(phase := if Loads(loads, f.good) then Booting(raw, f.good.value, true)
                  else if own.Some? then Booting(raw, own.value, false)
                  else Down)
    case Booting(raw, conf, fallback) =>
      if ok && fallback then s.(phase := Running(conf))
      else if ok then s.(phase := if raw == [] then Running(conf) else Unmarking(raw, conf), started := s.started + {conf})
      else s.(phase := if fallback then Down else Noting(raw))
    case Noting(raw) =>
      s.(phase := if f.good.None? || raw == [] || f.good.value == raw then Down else Marking(raw))
    case Marking(raw) => // writeBeside renames last: all of it or nothing
      s.(files := if ok then f.(refused := Some(raw)) else f, phase := Down)
    case Unmarking(raw, conf) =>
      s.(files := if ok then f.(refused := None) else f, phase := Saving(raw, conf))
    case Saving(raw, conf) =>
      s.(files := if ok then f.(good := Some(raw)) else f, phase := Running(conf))
    case Running(_) => s
  }

  function Step(loads: Bytes -> bool, s: State, e: Event): State {
    match e
    case Edit(c) => s.(files := s.files.(cfg := c))
    case Launch => if s.phase.Down? then s.(phase := Reading) else s
    case Go(ok) => StepGo(loads, s, ok)
    case Crash => s.(phase := Down)
  }

  function Run(loads: Bytes -> bool, s: State, es: seq<Event>): State
    decreases |es|
  {
    if es == [] then s else Step(loads, Run(loads, s, es[..|es| - 1]), es[|es| - 1])
  }

  /** What the design says of the two files at all times. */
  predicate CopyStarted(s: State) {
    s.files.good.Some? ==> s.files.good.value in s.started
  }

  predicate MarkerApart(s: State) {
    s.files.refused.Some? && s.files.good.Some? ==> s.files.refused != s.files.good
  }

  /** What a start knows at each point: the marker is about contents other than the
      copy, and the contents about to be kept have started. */
  predicate Sound(s: State) {
    CopyStarted(s) && MarkerApart(s) &&
    match s.phase
    case Comparing(raw, conf) => raw == conf
    case Clearing(raw, conf) => raw == conf
    case Falling(raw, own) => own.Some? ==> raw == own.value
    case Booting(raw, conf, fallback) => !fallback ==> raw == conf
    case Marking(raw) => s.files.good.Some? && s.files.good.value != raw
    case Unmarking(raw, conf) => raw in s.started
    case Saving(raw, conf) => raw in s.started && s.files.refused != Some(raw)
    case _ => true
  }

  /** The two reads of the config agree, and removing the marker works when it
      names the contents being kept. */
  predicate Undisturbed(s: State, e: Event) {
    match s.phase
    case Parsing(raw) => e.Go? && s.files.cfg.Some? ==> raw == s.files.cfg.value
    case Unmarking(raw, _) => e == Go(false) ==> s.files.refused != Some(raw)
    case _ => true
  }

  lemma StepSound(loads: Bytes -> bool, s: State, e: Event)
    requires Sound(s) && Undisturbed(s, e)
    ensures Sound(Step(loads, s, e))
  {
  }

  /** The daemon never writes the config. */
  lemma ConfigUntouched(loads: Bytes -> bool, s: State, e: Event)
    requires !e.Edit?
    ensures Step(loads, s, e).files.cfg == s.files.cfg
  {
  }

  const Fresh := State(Files(None, None, None), Down, {})

  ghost predicate Calm(loads: Bytes -> bool, es: seq<Event>) {
    forall k :: 0 <= k < |es| ==> Undisturbed(Run(loads, Fresh, es[..k]), es[k])
  }

  /** In every run of edits, starts, failures and crashes between file operations,
      where no edit falls between the two reads of the config and removing the
      marker works: the last good copy only holds contents that once started
      cleanly, and the marker never names the copy. */
  lemma {:induction false} RunSound(loads: Bytes -> bool, es: seq<Event>)
    requires Calm(loads, es)
    ensures Sound(Run(loads, Fresh, es))
  {
    if es == [] {
    } else {
      var n := |es| - 1;
      var pre := es[..n];
      forall k | 0 <= k < n
        ensures Undisturbed(Run(loads, Fresh, pre[..k]), pre[k])
      {
        assert pre[..k] == es[..k] && pre[k] == es[k];
      }
      RunSound(loads, pre);
      StepSound(loads, Run(loads, Fresh, pre), es[n]);
    }
  }

  /** What a start knows whatever is edited and whatever fails. */
  predicate Known(s: State) {
    match s.phase
    case Marking(raw) => s.files.good.Some? && s.files.good.value != raw
    case Unmarking(_, conf) => conf in s.started
    case Saving(_, conf) => conf in s.started
    case _ => true
  }

  /** The two reads of the start under way differed: when it parsed the config, which
      loads, the file was no longer what it had read, and that had never started. */
  ghost predicate Torn(loads: Bytes -> bool, es: seq<Event>)
    decreases |es|
  {
    es != [] &&
    var pre, e := es[..|es| - 1], es[|es| - 1];
    var s := Run(loads, Fresh, pre);
    && !Run(loads, Fresh, es).phase.Down?
    && if e.Go? && s.phase.Parsing?
       then Loads(loads, s.files.cfg) && s.phase.raw != s.files.cfg.value && s.phase.raw !in s.started
       else Torn(loads, pre)
  }

  /** The start under way could not remove the marker, which named what it had read. */
  ghost predicate Unremoved(loads: Bytes -> bool, es: seq<Event>)
    decreases |es|
  {
    es != [] &&
    var pre, e := es[..|es| - 1], es[|es| - 1];
    var s := Run(loads, Fresh, pre);
    && !Run(loads, Fresh, es).phase.Down?
    && if e.Go? && s.phase.Unmarking? then !e.ok && s.files.refused == Some(s.phase.raw)
       else Unremoved(loads, pre)
  }

  /** The copy is written. */
  predicate Saves(s: State, e: Event) {
    s.phase.Saving? && e == Go(true)
  }

  lemma {:induction false} RunKnown(loads: Bytes -> bool, es: seq<Event>)
    ensures Known(Run(loads, Fresh, es))
  {
    if es == [] {
    } else {
      RunKnown(loads, es[..|es| - 1]);
    }
  }

  /** What a start carries of its two reads and of the marker, point by point. */
  ghost predicate Carries(s: State, torn: bool, unremoved: bool) {
    match s.phase
    case Down => !torn && !unremoved
    case Reading => !torn && !unremoved
    case Parsing(_) => !torn && !unremoved
    case Comparing(raw, conf) => !unremoved && (torn <==> raw != conf && raw !in s.started)
    case Clearing(raw, conf) => !unremoved && (torn <==> raw != conf && raw !in s.started)
    case Falling(raw, own) => !unremoved && (own.Some? ==> (torn <==> raw != own.value && raw !in s.started))
    case Booting(raw, conf, fallback) => !unremoved && (!fallback ==> (torn <==> raw != conf && raw !in s.started))
    case Unmarking(raw, conf) => !unremoved && (torn <==> raw != conf && raw !in s.started)
    case Saving(raw, conf) => (unremoved <==> s.files.refused == Some(raw)) && (torn <==> raw != conf && raw !in s.started)
    case _ => true
  }

  lemma {:induction false} RunCarries(loads: Bytes -> bool, es: seq<Event>)
    ensures Carries(Run(loads, Fresh, es), Torn(loads, es), Unremoved(loads, es))
  {
    if es == [] {
    } else {
      RunCarries(loads, es[..|es| - 1]);
    }
  }

  /** One operation breaks what the design says of the copy exactly when it writes the copy
      in a start whose reads differed, and of the marker exactly when it does in a start
      that could not remove it. */
  lemma FilesExact(loads: Bytes -> bool, es: seq<Event>, e: Event)
    requires CopyStarted(Run(loads, Fresh, es)) && MarkerApart(Run(loads, Fresh, es))
    ensures CopyStarted(Step(loads, Run(loads, Fresh, es), e)) <==> !(Saves(Run(loads, Fresh, es), e) && Torn(loads, es))
    ensures MarkerApart(Step(loads, Run(loads, Fresh, es), e)) <==> !(Saves(Run(loads, Fresh, es), e) && Unremoved(loads, es))
  {
    RunKnown(loads, es);
    RunCarries(loads, es);
    hide Run, Torn, Unremoved;
  }

  ghost predicate FilesRight(loads: Bytes -> bool, es: seq<Event>) {
    forall k :: 0 <= k <= |es| ==> CopyStarted(Run(loads, Fresh, es[..k])) && MarkerApart(Run(loads, Fresh, es[..k]))
  }

  ghost predicate CleanSaves(loads: Bytes -> bool, es: seq<Event>) {
    forall k :: 0 <= k < |es| ==> Saves(Run(loads, Fresh, es[..k]), es[k]) ==> !Torn(loads, es[..k]) && !Unremoved(loads, es[..k])
  }

  /** What the last event adds to both. */
  lemma LastOne(loads: Bytes -> bool, es: seq<Event>)
    requires es != []
    ensures var pre, e := es[..|es| - 1], es[|es| - 1];
            && (FilesRight(loads, es) <==> FilesRight(loads, pre) && CopyStarted(Run(loads, Fresh, es)) && MarkerApart(Run(loads, Fresh, es)))
            && (CleanSaves(loads, es) <==>
                  CleanSaves(loads, pre) && (Saves(Run(loads, Fresh, pre), e) ==> !Torn(loads, pre) && !Unremoved(loads, pre)))
  {
    hide Run, CopyStarted, MarkerApart, Torn, Unremoved, Saves;
    var pre := es[..|es| - 1];
    assert es[..|es|] == es;
    assert forall k :: 0 <= k <= |pre| ==> pre[..k] == es[..k];
  }

  /** Over every run of edits, starts, failures and crashes: the copy holds only what once
      started and the marker never names it, at every moment, exactly when no start goes
      on to write the copy after its two reads differed or after it could not remove the
      marker that names what it read. */
  lemma {:induction false} RunExact(loads: Bytes -> bool, es: seq<Event>)
    ensures FilesRight(loads, es) <==> CleanSaves(loads, es)
  {
    if es == [] {
      assert es[..0] == [];
    } else {
      var n := |es| - 1;
      var pre := es[..n];
      LastOne(loads, es);
      RunExact(loads, pre);
      if FilesRight(loads, pre) {
        assert pre[..n] == pre;
        FilesExact(loads, pre, es[n]);
        hide FilesRight, CleanSaves, CopyStarted, MarkerApart, Torn, Unremoved, Saves;
      }
    }
  }

  function Gos(loads: Bytes -> bool, s: State, n: nat): State
    decreases n
  {
    if n == 0 then s else Gos(loads, StepGo(loads, s, true), n - 1)
  }

  /** The converse, for every case of it: an edit between the two reads that puts
      in contents that start leaves as the last good copy the contents from before
      the edit, which nothing ever started on. */
  lemma EditBetweenReadsBreaksTheCopy(loads: Bytes -> bool, s: State)
    requires s.phase.Parsing? && Loads(loads, s.files.cfg)
    requires s.phase.raw != [] && s.phase.raw != s.files.cfg.value && s.phase.raw !in s.started
    requires s.files.refused != Some(s.phase.raw)
    ensures !CopyStarted(Gos(loads, s, 6))
  {
    var s1 := StepGo(loads, s, true);
    var s2 := StepGo(loads, s1, true);
    var s3 := StepGo(loads, s2, true);
    var s4 := StepGo(loads, s3, true);
    var s5 := StepGo(loads, s4, true);
    var s6 := StepGo(loads, s5, true);
    assert s6.files.good == Some(s.phase.raw) && s.phase.raw !in s6.started;
    assert Gos(loads, s, 6) == Gos(loads, s1, 5) == Gos(loads, s2, 4) == Gos(loads, s3, 3) == Gos(loads, s4, 2) == Gos(loads, s5, 1) == Gos(loads, s6, 0);
  }

  /** And the marker: kept by a failed removal, it names the copy being made. */
  lemma FailedRemovalBreaksTheMarker(loads: Bytes -> bool, s: State)
    requires s.phase.Unmarking? && s.files.refused == Some(s.phase.raw)
    ensures !MarkerApart(Step(loads, Step(loads, s, Go(false)), Go(true)))
  {
  }

  // ---------------------------------------------------------------- the steps make a start

  /** One operation, with every file operation working and the meshes starting as
      boots says. */
  function Proceed(loads: Bytes -> bool, boots: Bytes -> bool, s: State): State {
    StepGo(loads, s, if s.phase.Booting? then boots(s.phase.conf) else true)
  }

  function Proceeds(loads: Bytes -> bool, boots: Bytes -> bool, s: State, n: nat): State
    decreases n
  {
    if n == 0 then s else Proceeds(loads, boots, Proceed(loads, boots, s), n - 1)
  }

  lemma FromBooting(loads: Bytes -> bool, boots: Bytes -> bool, s: State)
    requires s.phase.Booting?
    ensures var s' := Proceeds(loads, boots, s, 3);
            var b := s.phase;
            && s'.files == (if b.fallback then s.files
                            else if boots(b.conf) then SaveLastGood(s.files, b.raw) else NoteRefused(s.files, b.raw))
            && s'.phase == (if boots(b.conf) then Running(b.conf) else Down)
  {
    var s1 := Proceed(loads, boots, s);
    var s2 := Proceed(loads, boots, s1);
    var s3 := Proceed(loads, boots, s2);
    assert Proceeds(loads, boots, s, 3) == Proceeds(loads, boots, s1, 2) == Proceeds(loads, boots, s2, 1) == Proceeds(loads, boots, s3, 0);
  }

  lemma ToBooting(loads: Bytes -> bool, boots: Bytes -> bool, s: State)
    requires s.phase.Reading?
    ensures exists n: nat :: n <= 4 &&
              var s' := Proceeds(loads, boots, s, n);
              var (f, l) := Load(loads, s.files);
              s'.files == f && s'.phase == (match l case Refused => Down case Use(conf, raw, fallback) => Booting(raw, conf, fallback))
  {
    var s1 := Proceed(loads, boots, s);
    var s2 := Proceed(loads, boots, s1);
    var s3 := Proceed(loads, boots, s2);
    var s4 := Proceed(loads, boots, s3);
    assert Proceeds(loads, boots, s, 3) == Proceeds(loads, boots, s1, 2) == Proceeds(loads, boots, s2, 1) == Proceeds(loads, boots, s3, 0);
    assert Proceeds(loads, boots, s, 4) == Proceeds(loads, boots, s1, 3) == Proceeds(loads, boots, s2, 2) == Proceeds(loads, boots, s3, 1) == Proceeds(loads, boots, s4, 0);
    if Loads(loads, s.files.cfg) && s.files.refused.None? {
      assert s3.phase.Booting?;
    } else if !Loads(loads, s.files.cfg) {
      assert s3.phase.Booting? || s3.phase.Down?;
    } else {
      assert s4.phase.Booting?;
    }
  }

  lemma {:induction false} ProceedsAdd(loads: Bytes -> bool, boots: Bytes -> bool, s: State, m: nat, n: nat)
    ensures Proceeds(loads, boots, Proceeds(loads, boots, s, m), n) == Proceeds(loads, boots, s, m + n)
    decreases m
  {
    if m == 0 {
    } else {
      ProceedsAdd(loads, boots, Proceed(loads, boots, s), m - 1, n);
    }
  }

  /** Left alone, the file operations of a start add up to Start: the same files,
      and the daemon running on the same contents or down. */
  lemma StepsMakeAStart(loads: Bytes -> bool, boots: Bytes -> bool, s: State)
    requires s.phase.Reading?
    ensures exists n: nat ::
              var s' := Proceeds(loads, boots, s, n);
              var (f, up) := Start(loads, boots, s.files);
              s'.files == f && s'.phase == (if up.Some? then Running(up.value) else Down)
  {
    ToBooting(loads, boots, s);
    var (f, l) := Load(loads, s.files);
    var n: nat :| n <= 4 &&
      var s' := Proceeds(loads, boots, s, n);
      s'.files == f && s'.phase == (match l case Refused => Down case Use(conf, raw, fallback) => Booting(raw, conf, fallback));
    var s' := Proceeds(loads, boots, s, n);
    if l.Use? {
      FromBooting(loads, boots, s');
      ProceedsAdd(loads, boots, s, n, 3);
    }
  }
}

/** Changes to the config file: what each setting does (cmd/shrooms/control.go), a slow
    join (cmd/shrooms/joinmore.go), and every interleaving of their reads and writes
    under the file's lock (internal/state/config_update.go). */
module ConfigEdits {
  import opened Options

  const Default := "default"
  const Placeholder := "PASTE-THE-NETWORK-KEY-HERE"

  /** A named mesh; `rest` is everything about it that no change here touches. */
  datatype Mesh = Mesh(key: string, services: seq<string>, relay: bool, rest: nat)

  /** The file. The top-level fields describe a mesh only when the top-level key is real. */
  datatype Config = Config(topKey: string, topServices: seq<string>, topRelay: bool,
                           mode: string, meshes: map<string, Mesh>, rest: nat)

  datatype Change =
    | SetMode(mode: string)
    | SetServices(services: seq<string>, name: string)
    | SetRelay(on: bool, name: string)
    | Leave(name: string)
    | AddMesh(name: string, mesh: Mesh)

  /** What Validate and the service parser ask beyond what is modelled. */
  datatype Rules = Rules(valid: Config -> bool, specs: seq<string> -> bool)

  predicate HasTop(c: Config) {
    c.topKey != "" && c.topKey != Placeholder
  }

  /** validateMeshes refuses two meshes with one key. */
  predicate KeysDistinct(c: Config) {
    && (forall l, m :: l in c.meshes && m in c.meshes && l != m ==> c.meshes[l].key != c.meshes[m].key)
    && (HasTop(c) ==> forall l :: l in c.meshes ==> c.meshes[l].key != c.topKey)
  }

  predicate Valid(rules: Rules, c: Config) {
    KeysDistinct(c) && rules.valid(c)
  }

  // ---------------------------------------------------------------- which mesh is meant

  datatype Target = Top | Named(name: string)

  /** A mesh this device is on: the top-level fields describe one only with a real key. */
  predicate Real(c: Config, t: Target) {
    match t
    case Top => HasTop(c)
    case Named(name) => name in c.meshes
  }

  /** servicesMesh. */
  function ServicesMesh(c: Config, name: string): (t: Option<Target>)
    ensures t.Some? ==> Real(c, t.value)
  {
    if HasTop(c) && (name == "" || name == Default) then Some(Top)
    else if name != "" then if name in c.meshes then Some(Named(name)) else None
    else if |c.meshes| == 1 then Some(Named(Only(c.meshes.Keys)))
    else None
  }

  function Only(s: set<string>): (l: string)
    requires |s| == 1
    ensures s == {l}
  {
    assert exists l :: l in s by { if s == {} { assert false; } }
    SingletonIs(s);
    var l :| l in s;
    l
  }

  lemma SingletonIs(s: set<string>)
    requires |s| == 1
    ensures forall l :: l in s ==> s == {l}
  {
    forall l | l in s
      ensures s == {l}
    {
      assert |s - {l}| == 0;
    }
  }

  function ServicesOf(c: Config, t: Target): seq<string>
    requires t.Named? ==> t.name in c.meshes
  {
    match t
    case Top => c.topServices
    case Named(name) => c.meshes[name].services
  }

  function RelayOf(c: Config, t: Target): bool
    requires t.Named? ==> t.name in c.meshes
  {
    match t
    case Top => c.topRelay
    case Named(name) => c.meshes[name].relay
  }

  /** Where setMeshBool writes. */
  function FlagPlace(c: Config, name: string): (t: Option<Target>)
    ensures t.Some? && t.value.Named? ==> t.value.name in c.meshes
  {
    if name == "" || (name == Default && c.topKey != "") then Some(Top)
    else if name in c.meshes then Some(Named(name))
    else None
  }

  function PutRelayAt(c: Config, t: Target, on: bool): Config
    requires t.Named? ==> t.name in c.meshes
  {
    match t
    case Top => c.(topRelay := on)
    case Named(name) => c.(meshes := c.meshes[name := c.meshes[name].(relay := on)])
  }

  /** setMeshBool. */
  function SetMeshBool(c: Config, name: string, on: bool): Option<Config> {
    var t := FlagPlace(c, name);
    if t.None? then None else Some(PutRelayAt(c, t.value, on))
  }

  function PutServices(c: Config, t: Target, services: seq<string>): Config
    requires t.Named? ==> t.name in c.meshes
  {
    match t
    case Top => c.(topServices := services)
    case Named(name) => c.(meshes := c.meshes[name := c.meshes[name].(services := services)])
  }

  /** What a change makes of a config, before it is validated. */
  function Changed(rules: Rules, c: Config, ch: Change): Option<Config> {
    match ch
    case SetMode(mode) => if mode == "Core" || mode == "Edge" then Some(c.(mode := mode)) else None
    case SetServices(services, name) =>
      var t := ServicesMesh(c, name);
      if t.None? || !rules.specs(services) then None else Some(PutServices(c, t.value, services))
    case SetRelay(on, name) => SetMeshBool(c, name, on)
    case Leave(name) =>
      if name == "" || (name == Default && c.topKey != "") || name !in c.meshes then None
      else Some(c.(meshes := c.meshes - {name}))
    case AddMesh(name, mesh) =>
      if name in c.meshes then None else Some(c.(meshes := c.meshes[name := mesh]))
  }

  /** A change and the validation that stands before the write. */
  function Apply(rules: Rules, c: Config, ch: Change): Option<Config> {
    var r := Changed(rules, c, ch);
    if r.Some? && Valid(rules, r.value) then r else None
  }

  // ---------------------------------------------------------------- single changes

  /** configuredServices. */
  function ReadServices(c: Config, name: string): Option<seq<string>> {
    var t := ServicesMesh(c, name);
    if t.None? then None else Some(ServicesOf(c, t.value))
  }

  /** Whatever the config's shape, the services written under a label read back under
      it, every label that means the same mesh reads them, and any other reads what it
      read before. */
  lemma ServicesReadBack(rules: Rules, c: Config, services: seq<string>, name: string, other: string)
    requires Apply(rules, c, SetServices(services, name)).Some?
    ensures var c' := Apply(rules, c, SetServices(services, name)).value;
            && ReadServices(c', name) == Some(services)
            && ReadServices(c', other) ==
                 if ServicesMesh(c, other) == ServicesMesh(c, name) then Some(services) else ReadServices(c, other)
  {
    var t := ServicesMesh(c, name).value;
    var c' := PutServices(c, t, services);
    assert c'.meshes.Keys == c.meshes.Keys;
    SameMeaning(c, c', name);
    SameMeaning(c, c', other);
    hide ServicesMesh, Only, Valid;
  }

  /** Some mesh's flag is another in c' than in c. */
  ghost predicate FlagMoved(c: Config, c': Config) {
    exists t :: Real(c, t) && Real(c', t) && RelayOf(c', t) != RelayOf(c, t)
  }

  /** Every successful write of a flag, on every config: no mesh but the one at its place
      is touched, and one is touched exactly when the top-level mesh is real, or the
      label is given and is not "default" over a placeholder key, and its flag was
      another. The mesh that a services write under the label reaches has the flag then
      or had it before. */
  lemma FlagReachesExact(c: Config, name: string, on: bool)
    requires SetMeshBool(c, name, on).Some?
    ensures var c', place := SetMeshBool(c, name, on).value, FlagPlace(c, name);
            && (forall t :: Real(c, t) <==> Real(c', t))
            && (forall t :: Real(c, t) ==> RelayOf(c', t) == if place == Some(t) then on else RelayOf(c, t))
            && place.Some? && (place.value.Named? ==> name in c.meshes)
            && (FlagMoved(c, c') <==>
                  && (HasTop(c) || (name != "" && !(name == Default && c.topKey == Placeholder)))
                  && RelayOf(c, place.value) != on)
            && (ServicesMesh(c, name).Some? ==>
                  var t := ServicesMesh(c, name).value;
                  RelayOf(c', t) == on <==>
                    HasTop(c) || (name != "" && !(name == Default && c.topKey == Placeholder)) || RelayOf(c, t) == on)
  {
    var c', place := SetMeshBool(c, name, on).value, FlagPlace(c, name).value;
    assert Real(c, place) && RelayOf(c', place) != RelayOf(c, place) ==> FlagMoved(c, c');
  }

  /** A config with none at the top level: without a label the write succeeds and reaches
      no mesh, where on several meshes a services write says which is meant. */
  lemma FlagReachesNothing(c: Config, on: bool)
    requires !HasTop(c)
    ensures SetMeshBool(c, "", on).Some? && !FlagMoved(c, SetMeshBool(c, "", on).value)
    ensures |c.meshes| > 1 ==> ServicesMesh(c, "").None?
  {
    FlagReachesExact(c, "", on);
  }

  /** Such a config, after flattening. */
  lemma FlatConfigLosesTheFlag(c: Config)
    requires c == Config("", [], false, "Core", map["home" := Mesh("a", [], false, 0), "office" := Mesh("b", [], false, 0)], 0)
    ensures SetMeshBool(c, "", true) == Some(c.(topRelay := true))
    ensures !FlagMoved(c, c.(topRelay := true)) && ServicesMesh(c, "").None?
  {
    assert c.meshes.Keys == {"home", "office"};
    assert |c.meshes.Keys| == |c.meshes|;
    FlagReachesNothing(c, true);
  }

  /** A joined mesh lands beside the others, and no two meshes ever share a key. */
  lemma JoinAddsExactly(rules: Rules, c: Config, name: string, mesh: Mesh)
    ensures var r := Apply(rules, c, AddMesh(name, mesh));
            && (r.Some? <==> name !in c.meshes && Valid(rules, c.(meshes := c.meshes[name := mesh])))
            && (r.Some? ==> r.value.meshes.Keys == c.meshes.Keys + {name} && r.value.meshes[name] == mesh
                            && (forall l :: l in c.meshes ==> r.value.meshes[l] == c.meshes[l] && c.meshes[l].key != mesh.key))
  {
    var r := Apply(rules, c, AddMesh(name, mesh));
    if r.Some? {
      assert KeysDistinct(r.value);
      forall l | l in c.meshes
        ensures r.value.meshes[l] == c.meshes[l] && c.meshes[l].key != mesh.key
      {
        assert l != name && l in r.value.meshes && name in r.value.meshes;
      }
    }
  }

  /** A config without what a change sets. */
  function Rest(c: Config, ch: Change): Config {
    match ch
    case SetMode(_) => c.(mode := "")
    case SetServices(_, name) => var t := ServicesMesh(c, name); if t.None? then c else PutServices(c, t.value, [])
    case SetRelay(_, name) => var t := FlagPlace(c, name); if t.None? then c else PutRelayAt(c, t.value, false)
    case Leave(name) => c.(meshes := c.meshes - {name})
    case AddMesh(name, _) => c.(meshes := c.meshes - {name})
  }

  /** Two configs agree on all that the change does not set itself, and on whether there
      is a mesh to leave or none in the way of one to add. */
  predicate Agree(copy: Config, file: Config, ch: Change) {
    && Rest(copy, ch) == Rest(file, ch)
    && (ch.Leave? ==> ch.name in copy.meshes && ch.name in file.meshes)
    && (ch.AddMesh? ==> ch.name !in copy.meshes && ch.name !in file.meshes)
  }

  /** The labels mean the same meshes where the top-level keys and the labels are the same. */
  lemma SameMeaning(c: Config, d: Config, name: string)
    requires c.topKey == d.topKey && c.meshes.Keys == d.meshes.Keys
    ensures ServicesMesh(c, name) == ServicesMesh(d, name) && FlagPlace(c, name) == FlagPlace(d, name)
  {
    assert |c.meshes| == |c.meshes.Keys| == |d.meshes|;
  }

  /** A change leaves the rest of the config as it was. */
  lemma ChangeKeepsTheRest(rules: Rules, c: Config, ch: Change)
    requires Changed(rules, c, ch).Some?
    ensures Rest(Changed(rules, c, ch).value, ch) == Rest(c, ch)
    ensures !ch.Leave? && !ch.AddMesh? ==>
              Changed(rules, c, ch).value.topKey == c.topKey && Changed(rules, c, ch).value.meshes.Keys == c.meshes.Keys
  {
    var c' := Changed(rules, c, ch).value;
    match ch
    case SetServices(_, name) =>
      assert c'.meshes.Keys == c.meshes.Keys;
      SameMeaning(c, c', name);
    case SetRelay(_, name) =>
      assert c'.meshes.Keys == c.meshes.Keys;
      SameMeaning(c, c', name);
    case _ =>
  }

  lemma RestKeys(c: Config, ch: Change)
    requires !ch.Leave? && !ch.AddMesh?
    ensures Rest(c, ch).topKey == c.topKey && Rest(c, ch).meshes.Keys == c.meshes.Keys
  {
  }

  /** Two configs of which the change makes the same are those that agree. */
  lemma AgreeExact(rules: Rules, copy: Config, file: Config, ch: Change)
    requires Changed(rules, copy, ch).Some?
    ensures Changed(rules, copy, ch) == Changed(rules, file, ch) <==> Agree(copy, file, ch)
  {
    if Changed(rules, copy, ch) == Changed(rules, file, ch) {
      ChangeKeepsTheRest(rules, copy, ch);
      ChangeKeepsTheRest(rules, file, ch);
    }
    if Agree(copy, file, ch) {
      SameMade(rules, copy, file, ch);
    }
  }

  lemma PutOver(c: Config, t: Target, services: seq<string>)
    requires t.Named? ==> t.name in c.meshes
    ensures PutServices(PutServices(c, t, []), t, services) == PutServices(c, t, services)
  {
    if t.Named? {
      assert PutServices(PutServices(c, t, []), t, services).meshes == PutServices(c, t, services).meshes;
    }
  }

  lemma FlagOver(c: Config, t: Target, on: bool)
    requires t.Named? ==> t.name in c.meshes
    ensures PutRelayAt(PutRelayAt(c, t, false), t, on) == PutRelayAt(c, t, on)
  {
    if t.Named? {
      assert PutRelayAt(PutRelayAt(c, t, false), t, on).meshes == PutRelayAt(c, t, on).meshes;
    }
  }

  lemma SameMade(rules: Rules, copy: Config, file: Config, ch: Change)
    requires Changed(rules, copy, ch).Some? && Agree(copy, file, ch)
    ensures Changed(rules, copy, ch) == Changed(rules, file, ch)
  {
    hide PutServices, PutRelayAt, ServicesMesh, FlagPlace;
    match ch
    case SetMode(mode) =>
      assert copy.(mode := mode) == Rest(copy, ch).(mode := mode);
    case SetServices(services, name) =>
      RestKeys(copy, ch);
      RestKeys(file, ch);
      SameMeaning(copy, file, name);
      PutOver(copy, ServicesMesh(copy, name).value, services);
      PutOver(file, ServicesMesh(copy, name).value, services);
    case SetRelay(on, name) =>
      RestKeys(copy, ch);
      RestKeys(file, ch);
      SameMeaning(copy, file, name);
      FlagOver(copy, FlagPlace(copy, name).value, on);
      FlagOver(file, FlagPlace(copy, name).value, on);
    case Leave(_) =>
    case AddMesh(name, _) =>
      assert copy.meshes - {name} == copy.meshes && file.meshes - {name} == file.meshes;
  }

  // ---------------------------------------------------------------- what each change is for

  /** The mesh whose services a label means: the top-level one by no label or "default"; a
      named one by its label; without a label the only one there is. */
  predicate Means(c: Config, name: string, t: Target) {
    match t
    case Top => HasTop(c) && (name == "" || name == Default)
    case Named(l) =>
      && l in c.meshes && !(HasTop(c) && (name == "" || name == Default))
      && (if name == "" then c.meshes.Keys == {l} else l == name)
  }

  /** The label stands for the top-level fields, not for an entry. */
  predicate TopLabel(c: Config, name: string) {
    name == Default && c.topKey != ""
  }

  /** When a request is one its handler takes. */
  ghost predicate Acceptable(rules: Rules, c: Config, ch: Change) {
    match ch
    case SetMode(mode) => mode == "Core" || mode == "Edge"
    case SetServices(services, name) => rules.specs(services) && exists t :: Means(c, name, t)
    case SetRelay(_, name) => name == "" || TopLabel(c, name) || name in c.meshes
    case Leave(name) => name != "" && !TopLabel(c, name) && name in c.meshes
    case AddMesh(name, _) => name !in c.meshes
  }

  /** What the config holds once the change is made. */
  predicate Holds(c: Config, c': Config, ch: Change) {
    match ch
    case SetMode(mode) => c'.mode == mode
    case SetServices(services, name) =>
      && (forall l :: l in c.meshes && Means(c, name, Named(l)) ==> l in c'.meshes && c'.meshes[l].services == services)
      && (Means(c, name, Top) ==> c'.topServices == services)
    case SetRelay(on, name) =>
      if name == "" || TopLabel(c, name) then c'.topRelay == on else name in c'.meshes && c'.meshes[name].relay == on
    case Leave(name) => c'.meshes.Keys == c.meshes.Keys - {name}
    case AddMesh(name, mesh) => c'.meshes.Keys == c.meshes.Keys + {name} && c'.meshes[name] == mesh
  }

  /** c' is c with what the change is for, and nothing else. */
  predicate Sets(c: Config, c': Config, ch: Change) {
    Holds(c, c', ch) && Rest(c', ch) == Rest(c, ch)
  }

  lemma MeansExact(c: Config, name: string)
    ensures forall t :: Means(c, name, t) <==> ServicesMesh(c, name) == Some(t)
  {
    forall t
      ensures Means(c, name, t) <==> ServicesMesh(c, name) == Some(t)
    {
      assert |c.meshes| == |c.meshes.Keys|;
      if |c.meshes| == 1 {
        SingletonIs(c.meshes.Keys);
      }
      if t.Named? && c.meshes.Keys == {t.name} {
        assert |c.meshes.Keys| == 1;
      }
    }
  }

  lemma AcceptableExact(rules: Rules, c: Config, ch: Change)
    ensures Changed(rules, c, ch).Some? <==> Acceptable(rules, c, ch)
  {
    if ch.SetServices? {
      MeansExact(c, ch.name);
      if ServicesMesh(c, ch.name).Some? {
        assert Means(c, ch.name, ServicesMesh(c, ch.name).value);
      }
    }
  }

  /** A change makes exactly the config that has what it is for. */
  lemma ChangedSets(rules: Rules, c: Config, ch: Change)
    requires Changed(rules, c, ch).Some?
    ensures Sets(c, Changed(rules, c, ch).value, ch)
  {
    ChangeKeepsTheRest(rules, c, ch);
    if ch.SetServices? {
      MeansExact(c, ch.name);
    }
  }

  lemma OnlyOneSets(rules: Rules, c: Config, ch: Change, c': Config)
    requires Changed(rules, c, ch).Some? && Sets(c, c', ch)
    ensures c' == Changed(rules, c, ch).value
  {
    match ch
    case SetMode(mode) =>
      assert c' == Rest(c', ch).(mode := mode);
    case SetServices(services, name) => OneSetsServices(rules, c, services, name, c');
    case SetRelay(on, name) => OneSetsRelay(c, on, name, c');
    case Leave(name) =>
      assert c'.meshes - {name} == c'.meshes;
    case AddMesh(name, mesh) =>
      assert c'.meshes == (c'.meshes - {name})[name := mesh];
  }

  lemma OneSetsServices(rules: Rules, c: Config, services: seq<string>, name: string, c': Config)
    requires ServicesMesh(c, name).Some? && Sets(c, c', SetServices(services, name))
    ensures c' == PutServices(c, ServicesMesh(c, name).value, services)
  {
    var t := ServicesMesh(c, name).value;
    var ch := SetServices(services, name);
    MeansExact(c, name);
    RestKeys(c, ch);
    RestKeys(c', ch);
    SameMeaning(c, c', name);
    PutOver(c, t, services);
    PutOver(c', t, services);
    assert ServicesOf(c', t) == services;
    if t.Named? {
      assert c'.meshes == c'.meshes[t.name := c'.meshes[t.name].(services := services)];
    }
    assert PutServices(c', t, services) == c';
  }

  lemma OneSetsRelay(c: Config, on: bool, name: string, c': Config)
    requires FlagPlace(c, name).Some? && Sets(c, c', SetRelay(on, name))
    ensures c' == PutRelayAt(c, FlagPlace(c, name).value, on)
  {
    var t := FlagPlace(c, name).value;
    var ch := SetRelay(on, name);
    RestKeys(c, ch);
    RestKeys(c', ch);
    SameMeaning(c, c', name);
    FlagOver(c, t, on);
    FlagOver(c', t, on);
    if t.Named? {
      assert c'.meshes == c'.meshes[t.name := c'.meshes[t.name].(relay := on)];
    }
    assert PutRelayAt(c', t, on) == c';
  }

  /** Every request, on every config: it is taken exactly when its handler takes it and some
      config that has what it is for, and nothing else changed, validates; and that is then
      the one config there is. */
  lemma ApplyExact(rules: Rules, c: Config, ch: Change)
    ensures var r := Apply(rules, c, ch);
            && (r.Some? <==> Acceptable(rules, c, ch) && exists c' :: Sets(c, c', ch) && Valid(rules, c'))
            && (r.Some? ==> Sets(c, r.value, ch) && Valid(rules, r.value) && forall c' :: Sets(c, c', ch) ==> c' == r.value)
  {
    AcceptableExact(rules, c, ch);
    if Changed(rules, c, ch).Some? {
      ChangedSets(rules, c, ch);
      forall c' | Sets(c, c', ch)
        ensures c' == Changed(rules, c, ch).value
      {
        OnlyOneSets(rules, c, ch, c');
      }
    }
    hide Changed, Sets, Valid, Acceptable;
  }

  /** The config a request has loaded, as its handler changes it in place. */
  class Working {
    var cfg: Config

    constructor (cfg: Config)
      ensures this.cfg == cfg
    {
      this.cfg := cfg;
    }

    /** setMeshBool. */
    method PutRelay(name: string, on: bool) returns (ok: bool)
      modifies this
      ensures ok == SetMeshBool(old(cfg), name, on).Some?
      ensures cfg == if ok then SetMeshBool(old(cfg), name, on).value else old(cfg)
      ensures ok ==> forall t :: Real(cfg, t) && FlagPlace(cfg, name) != Some(t) ==> Real(old(cfg), t) && RelayOf(cfg, t) == RelayOf(old(cfg), t)
    {
      if name == "" || (name == Default && cfg.topKey != "") {
        cfg := cfg.(topRelay := on);
        return true;
      }
      if name !in cfg.meshes {
        return false;
      }
      var m := cfg.meshes[name];
      m := m.(relay := on);
      cfg := cfg.(meshes := cfg.meshes[name := m]);
      return true;
    }

    /** The handlers' callbacks: refused, nothing has changed. */
    method Make(rules: Rules, ch: Change) returns (ok: bool)
      modifies this
      ensures ok == Changed(rules, old(cfg), ch).Some?
      ensures cfg == if ok then Changed(rules, old(cfg), ch).value else old(cfg)
      ensures Rest(cfg, ch) == Rest(old(cfg), ch)
    {
      if Changed(rules, cfg, ch).Some? {
        ChangeKeepsTheRest(rules, cfg, ch);
      }
      match ch
      case SetMode(mode) =>
        if mode != "Core" && mode != "Edge" {
          return false;
        }
        cfg := cfg.(mode := mode);
        return true;
      case SetServices(services, name) =>
        var t := ServicesMesh(cfg, name);
        if t.None? || !rules.specs(services) {
          return false;
        }
        if t.value.Top? {
          cfg := cfg.(topServices := services);
        } else {
          var m := cfg.meshes[t.value.name];
          m := m.(services := services);
          cfg := cfg.(meshes := cfg.meshes[t.value.name := m]);
        }
        return true;
      case SetRelay(on, name) =>
        ok := PutRelay(name, on);
      case Leave(name) =>
        if name == "" || (name == Default && cfg.topKey != "") || name !in cfg.meshes {
          return false;
        }
        cfg := cfg.(meshes := cfg.meshes - {name});
        return true;
      case AddMesh(name, mesh) =>
        if name in cfg.meshes {
          return false;
        }
        cfg := cfg.(meshes := cfg.meshes[name := mesh]);
        return true;
    }
  }

  /** The file on disk. */
  class ConfigStore {
    var file: Config

    constructor (file: Config)
      ensures this.file == file
    {
      this.file := file;
    }

    /** writeSetting and the last part of joinAnother, with nobody in between: the file is
        written only with a change that applies and a config that validates. */
    method Update(rules: Rules, ch: Change) returns (ok: bool)
      modifies this
      ensures ok == Apply(rules, old(file), ch).Some?
      ensures file == if ok then Apply(rules, old(file), ch).value else old(file)
      ensures ok <==> Acceptable(rules, old(file), ch) && exists c' :: Sets(old(file), c', ch) && Valid(rules, c')
      ensures ok ==> Sets(old(file), file, ch) && Valid(rules, file)
    {
      ApplyExact(rules, file, ch);
      hide Sets, Acceptable;
      var w := new Working(file);
      ok := w.Make(rules, ch);
      if !ok {
        return;
      }
      var good := KeysApart(w.cfg);
      if !good || !rules.valid(w.cfg) {
        return false;
      }
      file := w.cfg;
    }
  }

  /** validateMeshes' loop: the keys seen so far, and each mesh against them. */
  method KeysApart(c: Config) returns (ok: bool)
    ensures ok == KeysDistinct(c)
  {
    hide KeysOf, Apart, KeysDistinct, HasTop;
    var seen: set<string> := if HasTop(c) then {c.topKey} else {};
    var left := c.meshes.Keys;
    ghost var done: set<string> := {};
    NoneAndAll(c);
    while left != {}
      invariant left == c.meshes.Keys - done && done <= c.meshes.Keys
      invariant seen == KeysOf(c, done) && Apart(c, done)
      decreases |left|
    {
      var l :| l in left;
      OneMore(c, done, l);
      if c.meshes[l].key in seen {
        return false;
      }
      seen := seen + {c.meshes[l].key};
      done := done + {l};
      left := left - {l};
    }
    assert done == c.meshes.Keys;
    return true;
  }

  /** The keys of the top-level mesh and of the meshes `done`. */
  ghost function KeysOf(c: Config, done: set<string>): set<string>
    requires done <= c.meshes.Keys
  {
    (if HasTop(c) then {c.topKey} else {}) + (set l | l in done :: c.meshes[l].key)
  }

  ghost predicate Apart(c: Config, done: set<string>)
    requires done <= c.meshes.Keys
  {
    && (forall l, m :: l in done && m in done && l != m ==> c.meshes[l].key != c.meshes[m].key)
    && (HasTop(c) ==> forall l :: l in done ==> c.meshes[l].key != c.topKey)
  }

  lemma NoneAndAll(c: Config)
    ensures KeysOf(c, {}) == (if HasTop(c) then {c.topKey} else {}) && Apart(c, {})
    ensures Apart(c, c.meshes.Keys) <==> KeysDistinct(c)
  {
  }

  lemma OneMore(c: Config, done: set<string>, l: string)
    requires done <= c.meshes.Keys && l in c.meshes && l !in done && Apart(c, done)
    ensures KeysOf(c, done + {l}) == KeysOf(c, done) + {c.meshes[l].key}
    ensures c.meshes[l].key in KeysOf(c, done) ==> !KeysDistinct(c)
    ensures c.meshes[l].key !in KeysOf(c, done) ==> Apart(c, done + {l})
  {
    if c.meshes[l].key !in KeysOf(c, done) {
      forall m | m in done
        ensures c.meshes[m].key != c.meshes[l].key
      {
        assert c.meshes[m].key in KeysOf(c, done);
      }
    }
  }

  // ---------------------------------------------------------------- interleavings

  /** A writer: a join waiting for its answer with what it read, one wanting the lock,
      one with it or refused it, and one that has loaded the file. */
  datatype Writer =
    | Joining(name: string, stale: Config)
    | Wanting(change: Change)
    | Admitted(change: Change, locked: bool)
    | Loaded(change: Change, copy: Config, locked: bool)

  datatype State = State(file: Config, holder: Option<nat>, writers: map<nat, Writer>, acked: seq<Change>)

  datatype Event =
    | Post(pid: nat, change: Change)
    | StartJoin(pid: nat, name: string)
    | Answered(pid: nat, mesh: Mesh)
    | Lock(pid: nat)
    | LockFails(pid: nat)
    | Load(pid: nat)
    | Write(pid: nat, lands: bool)
    | Crash(pid: nat)

  predicate Enabled(s: State, e: Event) {
    match e
    case Post(pid, _) => pid !in s.writers
    case StartJoin(pid, _) => pid !in s.writers
    case Answered(pid, _) => pid in s.writers && s.writers[pid].Joining?
    case Lock(pid) => pid in s.writers && s.writers[pid].Wanting? && s.holder.None?
    case LockFails(pid) => pid in s.writers && s.writers[pid].Wanting?
    case Load(pid) => pid in s.writers && s.writers[pid].Admitted?
    case Write(pid, _) => pid in s.writers && s.writers[pid].Loaded?
    case Crash(pid) => pid in s.writers
  }

  /** The writer is gone, and with it any lock it held. */
  function Gone(s: State, pid: nat): State {
    s.(writers := s.writers - {pid}, holder := if s.holder == Some(pid) then None else s.holder)
  }

  /** The checks a join makes against what it read before the exchange. */
  predicate StaleAllows(rules: Rules, stale: Config, name: string, mesh: Mesh) {
    Apply(rules, stale, AddMesh(name, mesh)).Some?
  }

  function Step(rules: Rules, s: State, e: Event): State
    requires Enabled(s, e)
  {
    match e
    case Post(pid, change) => s.(writers := s.writers[pid := Wanting(change)])
    case StartJoin(pid, name) =>
      if name == "" || name == Default || name in s.file.meshes then s
      else s.(writers := s.writers[pid := Joining(name, s.file)])
    case Answered(pid, mesh) =>
      var j := s.writers[pid];
      if StaleAllows(rules, j.stale, j.name, mesh) then s.(writers := s.writers[pid := Wanting(AddMesh(j.name, mesh))])
      else Gone(s, pid)
    case Lock(pid) => s.(writers := s.writers[pid := Admitted(s.writers[pid].change, true)], holder := Some(pid))
    case LockFails(pid) => s.(writers := s.writers[pid := Admitted(s.writers[pid].change, false)])
    case Load(pid) => s.(writers := s.writers[pid := Loaded(s.writers[pid].change, s.file, s.writers[pid].locked)])
    case Write(pid, lands) =>
      var w := s.writers[pid];
      var r := Apply(rules, w.copy, w.change);
      if r.None? || !lands then Gone(s, pid)
      else Gone(s.(file := r.value, acked := s.acked + [w.change]), pid)
    case Crash(pid) => Gone(s, pid)
  }

  predicate Runs(rules: Rules, s: State, es: seq<Event>)
    decreases |es|
  {
    es == [] || (Enabled(s, es[0]) && Runs(rules, Step(rules, s, es[0]), es[1..]))
  }

  function After(rules: Rules, s: State, es: seq<Event>): State
    requires Runs(rules, s, es)
    decreases |es|
  {
    if es == [] then s else After(rules, Step(rules, s, es[0]), es[1..])
  }

  function Start(c: Config): State {
    State(c, None, map[], [])
  }

  /** The changes one by one, each on what the one before left; None once one is refused. */
  function Replay(rules: Rules, c: Config, chs: seq<Change>): Option<Config>
    decreases |chs|
  {
    if chs == [] then Some(c)
    else
      var r := Replay(rules, c, chs[..|chs| - 1]);
      if r.None? then None else Apply(rules, r.value, chs[|chs| - 1])
  }

  predicate LocksWork(es: seq<Event>) {
    forall i :: 0 <= i < |es| ==> !es[i].LockFails?
  }

  /** What the lock gives: whoever is past it holds it, and has what the file has. */
  predicate Guarded(s: State) {
    forall p :: p in s.writers ==>
      match s.writers[p]
      case Admitted(_, locked) => locked && s.holder == Some(p)
      case Loaded(_, copy, locked) => locked && s.holder == Some(p) && copy == s.file
      case _ => s.holder != Some(p)
  }

  ghost predicate Serial(rules: Rules, c: Config, s: State) {
    Replay(rules, c, s.acked) == Some(s.file)
  }

  lemma WriteKeeps(rules: Rules, c: Config, s: State, e: Event)
    requires e.Write? && Enabled(s, e) && Serial(rules, c, s) && s.writers[e.pid].copy == s.file
    ensures Serial(rules, c, Step(rules, s, e))
  {
    var s' := Step(rules, s, e);
    if s'.acked != s.acked {
      assert s'.acked[..|s'.acked| - 1] == s.acked;
    }
  }

  lemma StepGuards(rules: Rules, s: State, e: Event)
    requires Guarded(s) && Enabled(s, e) && !e.LockFails?
    requires s.holder.Some? ==> s.holder.value in s.writers
    ensures Guarded(Step(rules, s, e))
    ensures var s' := Step(rules, s, e); s'.holder.Some? ==> s'.holder.value in s'.writers
  {
    hide Apply, StaleAllows;
  }

  lemma {:induction false} RunSerial(rules: Rules, c: Config, s: State, es: seq<Event>)
    requires Guarded(s) && Serial(rules, c, s) && Runs(rules, s, es) && LocksWork(es)
    requires s.holder.Some? ==> s.holder.value in s.writers
    ensures Serial(rules, c, After(rules, s, es))
    decreases |es|
  {
    hide Guarded;
    if es == [] {
    } else {
      assert !es[0].LockFails?;
      StepGuards(rules, s, es[0]);
      if es[0].Write? {
        assert s.writers[es[0].pid].copy == s.file by { LoadedIsFile(s, es[0].pid); }
        WriteKeeps(rules, c, s, es[0]);
      } else {
        assert Serial(rules, c, Step(rules, s, es[0])) by { hide Apply, StaleAllows, Replay; }
      }
      RunSerial(rules, c, Step(rules, s, es[0]), es[1..]);
    }
  }

  lemma LoadedIsFile(s: State, pid: nat)
    requires Guarded(s) && pid in s.writers && s.writers[pid].Loaded?
    ensures s.writers[pid].copy == s.file
  {
  }

  /** Every interleaving of settings, slow joins, failed writes and crashes leaves the file
      as the acknowledged changes make it, one by one in the order they were written,
      as long as the lock can be taken. */
  lemma ChangesAreSerial(rules: Rules, c: Config, es: seq<Event>)
    requires Runs(rules, Start(c), es) && LocksWork(es)
    ensures Replay(rules, c, After(rules, Start(c), es).acked) == Some(After(rules, Start(c), es).file)
  {
    RunSerial(rules, c, Start(c), es);
  }

  /** Exactly when one write keeps the file as its changes make it, locked or not: when
      the writer's copy and the file agree on all that its change does not set itself. */
  lemma WriteSerialExact(rules: Rules, c: Config, s: State, pid: nat)
    requires Serial(rules, c, s) && pid in s.writers && s.writers[pid].Loaded?
    requires Apply(rules, s.writers[pid].copy, s.writers[pid].change).Some?
    ensures Serial(rules, c, Step(rules, s, Write(pid, true))) <==> Agree(s.writers[pid].copy, s.file, s.writers[pid].change)
  {
    AgreeExact(rules, s.writers[pid].copy, s.file, s.writers[pid].change);
    hide Changed, Agree, Valid;
    var s' := Step(rules, s, Write(pid, true));
    assert s'.acked[..|s'.acked| - 1] == s.acked;
  }

  /** A write lands from a copy that does not agree with the file. */
  predicate StaleWrites(rules: Rules, s: State, e: Event)
    requires Enabled(s, e)
  {
    e.Write? && e.lands &&
    var w := s.writers[e.pid];
    Apply(rules, w.copy, w.change).Some? && !Agree(w.copy, s.file, w.change)
  }

  predicate NoneStale(rules: Rules, s: State, es: seq<Event>)
    requires Runs(rules, s, es)
    decreases |es|
  {
    es == [] || (!StaleWrites(rules, s, es[0]) && NoneStale(rules, Step(rules, s, es[0]), es[1..]))
  }

  ghost predicate AlwaysSerial(rules: Rules, c: Config, s: State, es: seq<Event>)
    requires Runs(rules, s, es)
    decreases |es|
  {
    Serial(rules, c, s) && (es == [] || AlwaysSerial(rules, c, Step(rules, s, es[0]), es[1..]))
  }

  /** Over every run, locks or none: the file is at every moment what its acknowledged
      changes make of it exactly when no write is a stale one. */
  lemma {:induction false} SerialExact(rules: Rules, c: Config, s: State, es: seq<Event>)
    requires Runs(rules, s, es) && Serial(rules, c, s)
    ensures AlwaysSerial(rules, c, s, es) <==> NoneStale(rules, s, es)
    decreases |es|
  {
    if es == [] {
    } else {
      var t := Step(rules, s, es[0]);
      assert Serial(rules, c, t) <==> !StaleWrites(rules, s, es[0]) by {
        if es[0].Write? && es[0].lands && Apply(rules, s.writers[es[0].pid].copy, s.writers[es[0].pid].change).Some? {
          WriteSerialExact(rules, c, s, es[0].pid);
        }
        hide Apply, Replay, StaleAllows, Agree;
      }
      hide Serial, Step, StaleWrites;
      if Serial(rules, c, t) {
        SerialExact(rules, c, t, es[1..]);
      } else {
        assert !AlwaysSerial(rules, c, t, es[1..]);
      }
    }
  }

  lemma {:induction false} RunValid(rules: Rules, s: State, es: seq<Event>)
    requires Valid(rules, s.file) && Runs(rules, s, es)
    ensures Valid(rules, After(rules, s, es).file)
    decreases |es|
  {
    hide Valid, StaleAllows;
    if es == [] {
    } else {
      assert Valid(rules, Step(rules, s, es[0]).file) by {
        if es[0].Write? {
          ApplyValid(rules, s.writers[es[0].pid].copy, s.writers[es[0].pid].change);
        }
        hide Apply;
      }
      RunValid(rules, Step(rules, s, es[0]), es[1..]);
    }
  }

  lemma ApplyValid(rules: Rules, c: Config, ch: Change)
    ensures Apply(rules, c, ch).Some? ==> Valid(rules, Apply(rules, c, ch).value)
  {
  }

  /** A file that would load always would, whatever interleaves and whether or not the
      lock can be taken: a join's check against what it read long before is repeated on
      what it writes. */
  lemma FileStaysValid(rules: Rules, c: Config, es: seq<Event>)
    requires Valid(rules, c) && Runs(rules, Start(c), es)
    ensures Valid(rules, After(rules, Start(c), es).file)
  {
    RunValid(rules, Start(c), es);
  }

  /** Without the lock an acknowledged change can be lost. */
  lemma UnlockedLosesAChange(rules: Rules)
    returns (c: Config, es: seq<Event>)
    requires rules.valid == ((c: Config) => true)
    ensures Valid(rules, c) && Runs(rules, Start(c), es)
    ensures var s := After(rules, Start(c), es);
            s.acked == [SetRelay(true, ""), SetMode("Edge")] && s.file == c.(mode := "Edge") && !c.topRelay
  {
    c := Config("key", [], false, "Core", map[], 0);
    var a, b := SetRelay(true, ""), SetMode("Edge");
    var s2 := State(c, None, map[0 := Wanting(a), 1 := Wanting(b)], []);
    var s6 := State(c, None, map[0 := Loaded(a, c, false), 1 := Loaded(b, c, false)], []);
    var s8 := State(c.(mode := "Edge"), None, map[], [a, b]);
    var first, loads, writes := [Post(0, a), Post(1, b)], [LockFails(0), LockFails(1), Load(0), Load(1)], [Write(0, true), Write(1, true)];
    StaleWrite(rules, c, s6, s8);
    EarlyLoads(rules, c, a, b, s2, s6);
    assert Reaches(rules, Start(c), first, s2) by {
      var s1 := State(c, None, map[0 := Wanting(a)], []);
      assert Step(rules, Start(c), first[0]) == s1 && Step(rules, s1, first[1]) == s2;
      Cons(rules, s1, first[1], []);
      Cons(rules, Start(c), first[0], [first[1]]);
    }
    Joined(rules, s2, loads, s6, writes, s8);
    Joined(rules, Start(c), first, s2, loads + writes, s8);
    es := first + (loads + writes);
  }

  lemma EarlyLoads(rules: Rules, c: Config, a: Change, b: Change, s: State, t: State)
    requires s == State(c, None, map[0 := Wanting(a), 1 := Wanting(b)], [])
    requires t == State(c, None, map[0 := Loaded(a, c, false), 1 := Loaded(b, c, false)], [])
    ensures Reaches(rules, s, [LockFails(0), LockFails(1), Load(0), Load(1)], t)
  {
    hide Step, Reaches;
    var mid := State(c, None, map[0 := Admitted(a, false), 1 := Admitted(b, false)], []);
    BothUnlocked(rules, c, a, b, s, mid);
    BothLoad(rules, c, a, b, mid, t);
    Joined(rules, s, [LockFails(0), LockFails(1)], mid, [Load(0), Load(1)], t);
    assert [LockFails(0), LockFails(1)] + [Load(0), Load(1)] == [LockFails(0), LockFails(1), Load(0), Load(1)];
  }

  lemma BothUnlocked(rules: Rules, c: Config, a: Change, b: Change, s: State, t: State)
    requires s == State(c, None, map[0 := Wanting(a), 1 := Wanting(b)], [])
    requires t == State(c, None, map[0 := Admitted(a, false), 1 := Admitted(b, false)], [])
    ensures Reaches(rules, s, [LockFails(0), LockFails(1)], t)
  {
    var mid := State(c, None, map[0 := Admitted(a, false), 1 := Wanting(b)], []);
    assert Step(rules, s, LockFails(0)) == mid && Step(rules, mid, LockFails(1)) == t;
    hide Step;
    Cons(rules, mid, LockFails(1), []);
    Cons(rules, s, LockFails(0), [LockFails(1)]);
  }

  lemma BothLoad(rules: Rules, c: Config, a: Change, b: Change, s: State, t: State)
    requires s == State(c, None, map[0 := Admitted(a, false), 1 := Admitted(b, false)], [])
    requires t == State(c, None, map[0 := Loaded(a, c, false), 1 := Loaded(b, c, false)], [])
    ensures Reaches(rules, s, [Load(0), Load(1)], t)
  {
    var mid := State(c, None, map[0 := Loaded(a, c, false), 1 := Admitted(b, false)], []);
    assert Step(rules, s, Load(0)) == mid && Step(rules, mid, Load(1)) == t;
    hide Step;
    Cons(rules, mid, Load(1), []);
    Cons(rules, s, Load(0), [Load(1)]);
  }

  lemma StaleWrite(rules: Rules, c: Config, s: State, t: State)
    requires rules.valid == ((c: Config) => true) && c == Config("key", [], false, "Core", map[], 0)
    requires s == State(c, None, map[0 := Loaded(SetRelay(true, ""), c, false), 1 := Loaded(SetMode("Edge"), c, false)], [])
    requires t == State(c.(mode := "Edge"), None, map[], [SetRelay(true, ""), SetMode("Edge")])
    ensures Reaches(rules, s, [Write(0, true), Write(1, true)], t)
  {
    var mid := State(c.(topRelay := true), None, map[1 := Loaded(SetMode("Edge"), c, false)], [SetRelay(true, "")]);
    assert Step(rules, s, Write(0, true)) == mid && Step(rules, mid, Write(1, true)) == t;
    hide Step;
    Cons(rules, mid, Write(1, true), []);
    Cons(rules, s, Write(0, true), [Write(1, true)]);
  }

  predicate Reaches(rules: Rules, s: State, es: seq<Event>, t: State) {
    Runs(rules, s, es) && After(rules, s, es) == t
  }

  lemma Cons(rules: Rules, s: State, e: Event, es: seq<Event>)
    requires Enabled(s, e) && Runs(rules, Step(rules, s, e), es)
    ensures Runs(rules, s, [e] + es) && After(rules, s, [e] + es) == After(rules, Step(rules, s, e), es)
  {
    assert ([e] + es)[1..] == es;
  }

  lemma {:induction false} Joined(rules: Rules, s: State, es: seq<Event>, t: State, fs: seq<Event>, u: State)
    requires Reaches(rules, s, es, t) && Reaches(rules, t, fs, u)
    ensures Reaches(rules, s, es + fs, u)
    decreases |es|
  {
    hide Step, Enabled;
    if es == [] {
      assert es + fs == fs;
    } else {
      Joined(rules, Step(rules, s, es[0]), es[1..], t, fs, u);
      assert (es + fs)[1..] == es[1..] + fs;
    }
  }

  // ---------------------------------------------------------------- requests that land

  /** A request on a file that takes it, with the lock free: it takes the lock, loads, writes
      and is acknowledged, and the lock is free again. */
  lemma RequestsLand(rules: Rules, s: State, pid: nat, ch: Change)
    requires pid !in s.writers && s.holder.None? && Apply(rules, s.file, ch).Some?
    ensures Reaches(rules, s, [Post(pid, ch)] + ([Lock(pid)] + ([Load(pid)] + [Write(pid, true)])),
                    State(Apply(rules, s.file, ch).value, None, s.writers, s.acked + [ch]))
  {
    var s1 := Step(rules, s, Post(pid, ch));
    LockedWriteLands(rules, s1, pid, ch);
    hide Step, Apply;
    assert s1.writers - {pid} == s.writers by { PostThenGone(rules, s, pid, ch); }
    Cons(rules, s, Post(pid, ch), [Lock(pid)] + ([Load(pid)] + [Write(pid, true)]));
  }

  lemma PostThenGone(rules: Rules, s: State, pid: nat, ch: Change)
    requires pid !in s.writers
    ensures Step(rules, s, Post(pid, ch)).writers - {pid} == s.writers
    ensures Step(rules, s, Post(pid, ch)).file == s.file && Step(rules, s, Post(pid, ch)).acked == s.acked
  {
  }

  lemma LockedWriteLands(rules: Rules, s: State, pid: nat, ch: Change)
    requires pid in s.writers && s.writers[pid] == Wanting(ch) && s.holder.None? && Apply(rules, s.file, ch).Some?
    ensures Reaches(rules, s, [Lock(pid)] + ([Load(pid)] + [Write(pid, true)]),
                    State(Apply(rules, s.file, ch).value, None, s.writers - {pid}, s.acked + [ch]))
  {
    var s2 := Step(rules, s, Lock(pid));
    var s3 := Step(rules, s2, Load(pid));
    var s4 := Step(rules, s3, Write(pid, true));
    assert s3.writers - {pid} == s.writers - {pid};
    assert s4 == State(Apply(rules, s.file, ch).value, None, s.writers - {pid}, s.acked + [ch]);
    hide Step, Apply;
    assert Runs(rules, s4, []) && [Write(pid, true)] + [] == [Write(pid, true)];
    Cons(rules, s3, Write(pid, true), []);
    Cons(rules, s2, Load(pid), [Write(pid, true)]);
    Cons(rules, s, Lock(pid), [Load(pid)] + [Write(pid, true)]);
  }

  /** A join that was let start and whose answer the config it read allows goes on to want
      exactly its entry added, whatever has become of the file meanwhile; and lands if the
      file as it then is takes it. */
  lemma JoinsLand(rules: Rules, s: State, pid: nat, name: string, mesh: Mesh)
    requires pid in s.writers && s.writers[pid].Joining? && s.writers[pid].name == name
    requires Apply(rules, s.writers[pid].stale, AddMesh(name, mesh)).Some?
    requires s.holder.None? && Apply(rules, s.file, AddMesh(name, mesh)).Some?
    ensures Reaches(rules, s, [Answered(pid, mesh)] + ([Lock(pid)] + ([Load(pid)] + [Write(pid, true)])),
                    State(s.file.(meshes := s.file.meshes[name := mesh]), None, s.writers - {pid}, s.acked + [AddMesh(name, mesh)]))
  {
    var ch := AddMesh(name, mesh);
    var s1 := Step(rules, s, Answered(pid, mesh));
    assert s1.writers - {pid} == s.writers - {pid};
    LockedWriteLands(rules, s1, pid, ch);
    assert Apply(rules, s.file, ch).value == s.file.(meshes := s.file.meshes[name := mesh]);
    hide Step, Apply;
    Cons(rules, s, Answered(pid, mesh), [Lock(pid)] + ([Load(pid)] + [Write(pid, true)]));
  }
}

/** Renaming and removing meshes (cmd/shrooms/mesh.go) against the way a config's
    meshes are given interfaces and ports (internal/state/meshes.go). */
module MeshPins {
  import opened Options
  import opened Slots
  import opened Columns

  /** The label of a top-level mesh. */
  function Default(): string {
    "default"
  }

  /** An empty interface or a zero port is one that is not pinned. */
  datatype Entry = Entry(key: string, iface: string, port: nat)

  /** The device's base interface and port, whether the config has a top-level mesh,
      and the named meshes. */
  datatype Config = Config(iface: string, port: nat, top: bool, meshes: map<string, Entry>)

  // ---------------------------------------------------------------- what each mesh uses

  function Digits(n: nat): (d: string)
    ensures d != []
  {
    if n < 10 then ["0123456789"[n]] else Digits(n / 10) + ["0123456789"[n % 10]]
  }

  function IfaceName(base: string, n: nat): string {
    if n == 0 then base else base + Digits(n)
  }

  function IfaceCand(base: string): nat -> Option<string> {
    (n: nat) => Some(IfaceName(base, n))
  }

  /** base + uint16(n); a sum below base has wrapped. */
  function PortAt(base: nat, n: nat): nat {
    (base + n) % 0x1_0000
  }

  function IfaceAt(base: string): nat -> string {
    (n: nat) => IfaceName(base, n)
  }

  function PortFrom(base: nat): nat -> nat {
    (n: nat) => PortAt(base, n)
  }

  function PortCand(base: nat): nat -> Option<nat> {
    (n: nat) => if PortAt(base, n) < base then None else Some(PortAt(base, n))
  }

  function IfaceScheme(c: Config): Scheme<string> {
    Scheme(IfaceCand(c.iface), IfaceAt(c.iface))
  }

  function PortScheme(c: Config): Scheme<nat> {
    Scheme(PortCand(c.port), PortFrom(c.port))
  }

  function Labels(c: Config): set<string> {
    c.meshes.Keys + (if c.top then {Default()} else {})
  }

  /** The top-level mesh has nowhere to write a pin. */
  function Named(c: Config): set<string> {
    c.meshes.Keys - (if c.top then {Default()} else {})
  }

  function IfaceColumn(c: Config): Column<string> {
    Column(Labels(c), map l | l in Named(c) && c.meshes[l].iface != "" :: c.meshes[l].iface)
  }

  function PortColumn(c: Config): Column<nat> {
    Column(Labels(c), map l | l in Named(c) && c.meshes[l].port != 0 :: c.meshes[l].port)
  }

  /** The interface and port a mesh resolves to. */
  ghost function IfaceOf(c: Config, l: string): string
    requires l in Labels(c)
  {
    Of(IfaceScheme(c), IfaceColumn(c), l)
  }

  ghost function PortOf(c: Config, l: string): nat
    requires l in Labels(c)
  {
    Of(PortScheme(c), PortColumn(c), l)
  }

  lemma PinnedValue(c: Config, l: string)
    requires l in Named(c)
    ensures c.meshes[l].iface != "" ==> IfaceOf(c, l) == c.meshes[l].iface
    ensures c.meshes[l].port != 0 ==> PortOf(c, l) == c.meshes[l].port
  {
    hide Of, Default;
    if c.meshes[l].iface != "" {
      PinWins(IfaceScheme(c), IfaceColumn(c), l);
    }
    if c.meshes[l].port != 0 {
      PinWins(PortScheme(c), PortColumn(c), l);
    }
  }

  // ---------------------------------------------------------------- pinning, renaming, removing

  /** pinInterfacesAndPorts: every named mesh but one called "default" gets what it
      resolves to written down. */
  ghost function Pin(c: Config): Config {
    c.(meshes := map l | l in c.meshes ::
         if l == Default() then c.meshes[l] else c.meshes[l].(iface := IfaceOf(c, l), port := PortOf(c, l)))
  }

  datatype Op = Rename(from: string, to: string) | Remove(gone: string)

  predicate LabelChar(r: char) {
    'a' <= r <= 'z' || '0' <= r <= '9' || r == '-'
  }

  /** ValidMeshLabel. */
  predicate ValidLabel(l: string) {
    0 < |l| <= 63 && (forall i :: 0 <= i < |l| ==> LabelChar(l[i])) && l[0] != '-' && l[|l| - 1] != '-'
  }

  /** The refusals of cmdMeshRename and cmdMeshRemove before anything is changed. */
  predicate Allowed(c: Config, op: Op) {
    match op
    case Rename(from, to) => from != to && ValidLabel(to) && to !in c.meshes && to != Default() && from in c.meshes
    case Remove(gone) => gone in c.meshes
  }

  /** What an operation makes of the config; nothing, if it is refused. */
  ghost function Made(c: Config, op: Op): Config {
    if !Allowed(c, op) then c
    else
      var p := Pin(c);
      match op
      case Rename(from, to) => p.(meshes := (p.meshes - {from})[to := p.meshes[from]])
      case Remove(gone) => p.(meshes := p.meshes - {gone})
  }

  /** What it leaves in the file: what validates, or what was there. */
  ghost function Apply(valid: Config -> bool, c: Config, op: Op): Config {
    if valid(Made(c, op)) then Made(c, op) else c
  }

  /** No entry is called "default" beside a top-level mesh, which is. */
  predicate OneDefault(c: Config) {
    !(c.top && Default() in c.meshes)
  }

  /** The label a mesh has after the operation, from the one before. */
  function NowCalled(op: Op, l: string): string {
    if op.Rename? && l == op.from then op.to else l
  }

  predicate Removes(op: Op, l: string) {
    op.Remove? && l == op.gone
  }

  /** The interface and port that an operation leaves pinned for a mesh: what it resolves
      to, but for one called "default" only what it had pinned, and never port 0 or an
      interface without a name, which say that there is no pin. */
  ghost function WrittenIface(c: Config, l: string): Option<string> {
    if l !in Named(c) then None
    else
      var i := if l == Default() then c.meshes[l].iface else IfaceOf(c, l);
      if i == "" then None else Some(i)
  }

  ghost function WrittenPort(c: Config, l: string): Option<nat> {
    if l !in Named(c) then None
    else
      var p := if l == Default() then c.meshes[l].port else PortOf(c, l);
      if p == 0 then None else Some(p)
  }

  lemma LabelsAfter(c: Config, op: Op)
    requires OneDefault(c) && Allowed(c, op)
    ensures Labels(Made(c, op)) == LabelsNext(c, op) && OneDefault(Made(c, op))
    ensures Made(c, op).iface == c.iface && Made(c, op).port == c.port && Made(c, op).top == c.top
  {
    hide IfaceOf, PortOf, ValidLabel, Default;
  }

  lemma EntryNext(c: Config, op: Op, l: string)
    requires OneDefault(c) && Allowed(c, op) && l in Labels(c) && !Removes(op, l)
    ensures var c', l' := Made(c, op), NowCalled(op, l);
            && l' in Labels(c') && (l' in Named(c') <==> l in Named(c))
            && (l in Named(c) ==>
                  c'.meshes[l'] == if l == Default() then c.meshes[l] else c.meshes[l].(iface := IfaceOf(c, l), port := PortOf(c, l)))
  {
    hide IfaceOf, PortOf, ValidLabel, Default;
  }

  lemma ColumnKeys(c: Config)
    ensures IfaceColumn(c).pins.Keys <= Labels(c) && PortColumn(c).pins.Keys <= Labels(c)
    ensures IfaceColumn(c).labels == PortColumn(c).labels == Labels(c)
  {
  }

  /** What a label's entry pins. */
  lemma ColumnAt(c: Config, l: string)
    requires l in Labels(c)
    ensures Get(IfaceColumn(c).pins, l) == if l in Named(c) && c.meshes[l].iface != "" then Some(c.meshes[l].iface) else None
    ensures Get(PortColumn(c).pins, l) == if l in Named(c) && c.meshes[l].port != 0 then Some(c.meshes[l].port) else None
  {
  }

  /** The labels once the operation is done. */
  function LabelsNext(c: Config, op: Op): set<string> {
    match op
    case Rename(from, to) => Labels(c) - {from} + {to}
    case Remove(gone) => Labels(c) - {gone}
  }

  /** Every label there afterwards is one from before. */
  lemma WasCalled(c: Config, op: Op, l': string) returns (l: string)
    requires OneDefault(c) && Allowed(c, op) && l' in LabelsNext(c, op)
    ensures l in Labels(c) && !Removes(op, l) && NowCalled(op, l) == l'
  {
    l := if op.Rename? && l' == op.to then op.from else l';
  }

  lemma BasesStay(c: Config, op: Op)
    ensures IfaceScheme(Made(c, op)) == IfaceScheme(c) && PortScheme(Made(c, op)) == PortScheme(c)
  {
    hide IfaceOf, PortOf, Allowed;
  }

  /** What a mesh has pinned after the operation. */
  lemma PinnedNext(c: Config, op: Op, l: string)
    requires OneDefault(c) && Allowed(c, op) && l in Labels(c) && !Removes(op, l)
    ensures var c', l' := Made(c, op), NowCalled(op, l);
            && l' in Labels(c')
            && Get(IfaceColumn(c').pins, l') == WrittenIface(c, l)
            && Get(PortColumn(c').pins, l') == WrittenPort(c, l)
  {
    EntryNext(c, op, l);
    EntryPins(c, l, Made(c, op), NowCalled(op, l));
  }

  /** What an entry pins that has what a mesh resolved to. */
  lemma EntryPins(c: Config, l: string, c': Config, l': string)
    requires l in Labels(c) && l' in Labels(c') && (l' in Named(c') <==> l in Named(c))
    requires l in Named(c) ==>
               c'.meshes[l'] == if l == Default() then c.meshes[l] else c.meshes[l].(iface := IfaceOf(c, l), port := PortOf(c, l))
    ensures Get(IfaceColumn(c').pins, l') == WrittenIface(c, l)
    ensures Get(PortColumn(c').pins, l') == WrittenPort(c, l)
  {
    ColumnAt(c', l');
    hide IfaceOf, PortOf, Labels, IfaceColumn, PortColumn, Default;
  }

  // ---------------------------------------------------------------- the meshes that are pinned

  /** c' has under l' the mesh c has under l, with the interface and port it had. */
  ghost predicate Same(c: Config, l: string, c': Config, l': string) {
    && l in c.meshes && l' in c'.meshes && c.meshes[l].key == c'.meshes[l'].key
    && IfaceOf(c, l) == IfaceOf(c', l') && PortOf(c, l) == PortOf(c', l')
  }

  /** An operation pins what the mesh resolves to. */
  ghost predicate Holds(c: Config, l: string) {
    l in Named(c) && WrittenIface(c, l) == Some(IfaceOf(c, l)) && WrittenPort(c, l) == Some(PortOf(c, l))
  }

  /** What an operation leaves a mesh called, None if it removes it. */
  ghost function CalledNext(valid: Config -> bool, c: Config, op: Op, l: string): Option<string> {
    if Apply(valid, c, op) == c then Some(l)
    else if Removes(op, l) then None
    else Some(NowCalled(op, l))
  }

  ghost function Run(valid: Config -> bool, c: Config, ops: seq<Op>): Config
    decreases |ops|
  {
    if ops == [] then c else Run(valid, Apply(valid, c, ops[0]), ops[1..])
  }

  /** What a sequence of operations leaves a mesh called. */
  ghost function Called(valid: Config -> bool, c: Config, ops: seq<Op>, l: string): Option<string>
    decreases |ops|
  {
    if ops == [] then Some(l)
    else
      var n := CalledNext(valid, c, ops[0], l);
      if n.None? then None else Called(valid, Apply(valid, c, ops[0]), ops[1..], n.value)
  }

  lemma MadeKeeps(c: Config, op: Op, l: string)
    requires OneDefault(c) && Allowed(c, op) && Holds(c, l) && !Removes(op, l)
    ensures Same(c, l, Made(c, op), NowCalled(op, l)) && Holds(Made(c, op), NowCalled(op, l))
  {
    EntryNext(c, op, l);
    EntryHolds(c, l, Made(c, op), NowCalled(op, l));
  }

  /** A mesh whose entry has what it resolved to, under whatever name, has it still. */
  lemma EntryHolds(c: Config, l: string, c': Config, l': string)
    requires Holds(c, l) && l' in Named(c') && (l' == Default() ==> l == Default())
    requires c'.meshes[l'] == if l == Default() then c.meshes[l] else c.meshes[l].(iface := IfaceOf(c, l), port := PortOf(c, l))
    ensures Same(c, l, c', l') && Holds(c', l')
  {
    hide IfaceOf, PortOf, Labels, Default;
    PinnedValue(c', l');
  }

  /** A mesh that an operation leaves is there under its new name with what it had, and is
      pinned to it. */
  lemma NextKeeps(valid: Config -> bool, c: Config, op: Op, l: string)
    requires OneDefault(c) && Holds(c, l) && CalledNext(valid, c, op, l).Some?
    ensures var c', l' := Apply(valid, c, op), CalledNext(valid, c, op, l).value;
            OneDefault(c') && Same(c, l, c', l') && Holds(c', l')
  {
    if Apply(valid, c, op) != c {
      LabelsAfter(c, op);
      MadeKeeps(c, op, l);
    }
    hide IfaceOf, PortOf, Made, Holds, Default;
  }

  /** Over every sequence of renames and removals, carried out or refused, each named mesh
      that is not removed is there under the name they leave it, with the interface and
      port it resolved to at the start, though what is not pinned comes from a position in
      a list the labels sort. */
  lemma {:induction false} NamedMeshesStay(valid: Config -> bool, c: Config, ops: seq<Op>, l: string)
    requires OneDefault(c) && Holds(c, l) && Called(valid, c, ops, l).Some?
    ensures Same(c, l, Run(valid, c, ops), Called(valid, c, ops, l).value)
    decreases |ops|
  {
    hide IfaceOf, PortOf, Holds, Apply, CalledNext, OneDefault, Default;
    if ops == [] {
      assert l in c.meshes by { HoldsNamed(c, l); }
    } else {
      NextKeeps(valid, c, ops[0], l);
      NamedMeshesStay(valid, Apply(valid, c, ops[0]), ops[1..], CalledNext(valid, c, ops[0], l).value);
    }
  }

  lemma HoldsNamed(c: Config, l: string)
    requires Holds(c, l)
    ensures l in c.meshes
  {
  }

  /** Every mesh holds what it resolves to but one called "default" that is not pinned, and
      one that resolves to port 0 or to no interface name. */
  lemma HoldsExact(c: Config, l: string)
    requires OneDefault(c) && l in c.meshes
    ensures Holds(c, l) <==>
              && IfaceOf(c, l) != "" && PortOf(c, l) != 0
              && (l == Default() ==> c.meshes[l].iface != "" && c.meshes[l].port != 0)
  {
    hide IfaceOf, PortOf, Less, Default;
    PinnedValue(c, l);
  }

  lemma NextFrom(valid: Config -> bool, c: Config, op: Op, l': string)
    returns (l: string)
    requires l' in Apply(valid, c, op).meshes
    ensures l in c.meshes && CalledNext(valid, c, op, l) == Some(l')
  {
    hide IfaceOf, PortOf, Default;
    l := if Apply(valid, c, op) != c && op.Rename? && l' == op.to then op.from else l';
  }

  /** And nothing else is there. */
  lemma {:induction false} NoOthersAppear(valid: Config -> bool, c: Config, ops: seq<Op>, l': string)
    returns (l: string)
    requires l' in Run(valid, c, ops).meshes
    ensures l in c.meshes && Called(valid, c, ops, l) == Some(l')
    decreases |ops|
  {
    hide IfaceOf, PortOf, Apply, CalledNext, Default;
    if ops == [] {
      l := l';
    } else {
      var m := NoOthersAppear(valid, Apply(valid, c, ops[0]), ops[1..], l');
      l := NextFrom(valid, c, ops[0], m);
    }
  }

  /** Validation has nothing against a config of these entries. */
  ghost predicate Unopposed(valid: Config -> bool, c: Config, labels: set<string>) {
    forall c': Config :: c'.meshes.Keys == labels && c'.iface == c.iface && c'.port == c.port && c'.top == c.top ==> valid(c')
  }

  /** A removal that validation allows takes exactly its mesh away, and one of a mesh that
      is not there changes nothing. */
  lemma RemovalsHappen(valid: Config -> bool, c: Config, gone: string)
    ensures gone !in c.meshes ==> Apply(valid, c, Remove(gone)) == c
    ensures Unopposed(valid, c, c.meshes.Keys - {gone}) ==>
              var c' := Apply(valid, c, Remove(gone));
              c'.meshes.Keys == c.meshes.Keys - {gone} && c'.iface == c.iface && c'.port == c.port && c'.top == c.top
  {
    hide IfaceOf, PortOf, Default;
    var made := Made(c, Remove(gone));
    if gone in c.meshes {
      assert made.meshes.Keys == c.meshes.Keys - {gone};
    } else {
      assert c.meshes.Keys - {gone} == c.meshes.Keys;
    }
  }

  /** So does a rename of one that is there to a label that can be had, of exactly one label
      to another; any other rename changes nothing. */
  lemma RenamesHappen(valid: Config -> bool, c: Config, from: string, to: string)
    ensures from !in c.meshes || to in c.meshes || to == Default() || !ValidLabel(to) ==> Apply(valid, c, Rename(from, to)) == c
    ensures from in c.meshes && to !in c.meshes && to != Default() && ValidLabel(to)
            && Unopposed(valid, c, c.meshes.Keys - {from} + {to}) ==>
              var c' := Apply(valid, c, Rename(from, to));
              c'.meshes.Keys == c.meshes.Keys - {from} + {to} && c'.iface == c.iface && c'.port == c.port && c'.top == c.top
  {
    hide IfaceOf, PortOf, ValidLabel, Default;
    if Allowed(c, Rename(from, to)) {
      assert Made(c, Rename(from, to)).meshes.Keys == c.meshes.Keys - {from} + {to};
    }
  }

  /** And the mesh goes by its new name. */
  lemma OperationsCall(valid: Config -> bool, c: Config, op: Op, l: string)
    requires l in c.meshes
    ensures op.Remove? && Unopposed(valid, c, c.meshes.Keys - {op.gone}) ==>
              CalledNext(valid, c, op, l) == if l == op.gone then None else Some(l)
    ensures op.Rename? && op.from in c.meshes && op.to !in c.meshes && op.to != Default() && ValidLabel(op.to)
            && Unopposed(valid, c, c.meshes.Keys - {op.from} + {op.to}) ==>
              CalledNext(valid, c, op, l) == Some(if l == op.from then op.to else l)
  {
    match op
    case Remove(gone) =>
      RemovalsHappen(valid, c, gone);
      hide Apply, Unopposed, ValidLabel, Default;
      assert gone in c.meshes ==> gone !in c.meshes.Keys - {gone};
    case Rename(from, to) =>
      RenamesHappen(valid, c, from, to);
      hide Apply, Unopposed, ValidLabel, Default;
      assert to in c.meshes.Keys - {from} + {to};
  }

  // ---------------------------------------------------------------- the meshes that are not

  /** The interfaces that are pinned once the operation is done. */
  ghost function HeldIfaces(c: Config, op: Op): set<string> {
    set l | l in Named(c) && !Removes(op, l) && WrittenIface(c, l).Some? :: WrittenIface(c, l).value
  }

  ghost function HeldPorts(c: Config, op: Op): set<nat> {
    set l | l in Named(c) && !Removes(op, l) && WrittenPort(c, l).Some? :: WrittenPort(c, l).value
  }

  /** How many labels then sort before the one the mesh has. */
  function Ahead(c: Config, op: Op, l: string): nat {
    |Below(LabelsNext(c, op), NowCalled(op, l))|
  }

  lemma AheadIs(c: Config, op: Op, l: string)
    requires OneDefault(c) && Allowed(c, op)
    ensures |Below(Labels(Made(c, op)), NowCalled(op, l))| == Ahead(c, op, l)
  {
    LabelsAfter(c, op);
    hide Below, Made, Labels, LabelsNext, ValidLabel;
  }

  lemma NamedNotTop(c: Config, l: string)
    requires l in Named(c)
    ensures l in Labels(c)
  {
  }

  lemma WrittenNamed(c: Config, l: string)
    ensures WrittenIface(c, l).Some? || WrittenPort(c, l).Some? ==> l in Named(c)
  {
  }

  lemma IfaceHeldTo(c: Config, op: Op, l: string)
    requires OneDefault(c) && Allowed(c, op) && l in Labels(c) && !Removes(op, l) && WrittenIface(c, l).Some?
    ensures WrittenIface(c, l).value in IfaceColumn(Made(c, op)).pins.Values
  {
    PinnedNext(c, op, l);
    hide Made, Labels, Named, IfaceColumn, PortColumn, WrittenIface, WrittenPort, Default, ValidLabel;
    assert IfaceColumn(Made(c, op)).pins[NowCalled(op, l)] == WrittenIface(c, l).value;
  }

  lemma IfaceHeldFrom(c: Config, op: Op, l': string)
    requires OneDefault(c) && Allowed(c, op) && l' in IfaceColumn(Made(c, op)).pins
    ensures IfaceColumn(Made(c, op)).pins[l'] in HeldIfaces(c, op)
  {
    LabelsAfter(c, op);
    ColumnKeys(Made(c, op));
    assert l' in LabelsNext(c, op) by { hide Made, LabelsNext, IfaceColumn; }
    var l := WasCalled(c, op, l');
    PinnedNext(c, op, l);
    WrittenNamed(c, l);
    hide Made, Labels, LabelsNext, Named, IfaceColumn, PortColumn, WrittenIface, WrittenPort, Default, ValidLabel;
  }

  lemma IfacesNext(c: Config, op: Op)
    requires OneDefault(c) && Allowed(c, op)
    ensures IfaceColumn(Made(c, op)).pins.Values == HeldIfaces(c, op)
  {
    var pins := IfaceColumn(Made(c, op)).pins;
    forall l' | l' in pins
      ensures pins[l'] in HeldIfaces(c, op)
    {
      IfaceHeldFrom(c, op, l');
    }
    forall l | l in Named(c) && !Removes(op, l) && WrittenIface(c, l).Some?
      ensures WrittenIface(c, l).value in pins.Values
    {
      NamedNotTop(c, l);
      IfaceHeldTo(c, op, l);
    }
    hide Made, Labels, Named, IfaceColumn, WrittenIface, Default, ValidLabel, Allowed, OneDefault;
  }

  lemma PortHeldTo(c: Config, op: Op, l: string)
    requires OneDefault(c) && Allowed(c, op) && l in Labels(c) && !Removes(op, l) && WrittenPort(c, l).Some?
    ensures WrittenPort(c, l).value in PortColumn(Made(c, op)).pins.Values
  {
    PinnedNext(c, op, l);
    hide Made, Labels, Named, IfaceColumn, PortColumn, WrittenIface, WrittenPort, Default, ValidLabel;
    assert PortColumn(Made(c, op)).pins[NowCalled(op, l)] == WrittenPort(c, l).value;
  }

  lemma PortHeldFrom(c: Config, op: Op, l': string)
    requires OneDefault(c) && Allowed(c, op) && l' in PortColumn(Made(c, op)).pins
    ensures PortColumn(Made(c, op)).pins[l'] in HeldPorts(c, op)
  {
    LabelsAfter(c, op);
    ColumnKeys(Made(c, op));
    assert l' in LabelsNext(c, op) by { hide Made, LabelsNext, PortColumn; }
    var l := WasCalled(c, op, l');
    PinnedNext(c, op, l);
    WrittenNamed(c, l);
    hide Made, Labels, LabelsNext, Named, IfaceColumn, PortColumn, WrittenIface, WrittenPort, Default, ValidLabel;
  }

  lemma PortsNext(c: Config, op: Op)
    requires OneDefault(c) && Allowed(c, op)
    ensures PortColumn(Made(c, op)).pins.Values == HeldPorts(c, op)
  {
    var pins := PortColumn(Made(c, op)).pins;
    forall l' | l' in pins
      ensures pins[l'] in HeldPorts(c, op)
    {
      PortHeldFrom(c, op, l');
    }
    forall l | l in Named(c) && !Removes(op, l) && WrittenPort(c, l).Some?
      ensures WrittenPort(c, l).value in pins.Values
    {
      NamedNotTop(c, l);
      PortHeldTo(c, op, l);
    }
    hide Made, Labels, Named, PortColumn, WrittenPort, Default, ValidLabel, Allowed, OneDefault;
  }

  /** For every mesh that an operation leaves without a pinned interface, exactly what
      interface it has then: the first from its new position that nothing pinned and no
      such mesh before it has, or the position's own where there is none in reach. */
  lemma LooseIfaceExact(c: Config, op: Op, l: string, v: string)
    requires OneDefault(c) && Allowed(c, op) && l in Labels(c) && !Removes(op, l) && WrittenIface(c, l).None?
    ensures var c', l' := Made(c, op), NowCalled(op, l);
            && l' in Labels(c')
            && (IfaceOf(c', l') == v <==>
                  Lands(IfaceScheme(c), Ahead(c, op, l),
                        HeldIfaces(c, op) + LooseBefore(IfaceScheme(c'), IfaceColumn(c'), l'), v))
  {
    var c', l' := Made(c, op), NowCalled(op, l);
    BasesStay(c, op);
    ColumnKeys(c');
    PinnedNext(c, op, l);
    IfacesNext(c, op);
    AheadIs(c, op, l);
    hide Made, Of, Below, Lands, LooseBefore, Labels, Named, IfaceColumn, IfaceScheme, ValidLabel, Less, HeldIfaces, Allowed, Ahead, NowCalled, Default, OneDefault;
    LooseExact(IfaceScheme(c'), IfaceColumn(c'), l', v);
  }

  /** The same for its port: where the search meets the end of the 16 bits, the position's
      own port wrapped around. */
  lemma LoosePortExact(c: Config, op: Op, l: string, v: nat)
    requires OneDefault(c) && Allowed(c, op) && l in Labels(c) && !Removes(op, l) && WrittenPort(c, l).None?
    ensures var c', l' := Made(c, op), NowCalled(op, l);
            && l' in Labels(c')
            && (PortOf(c', l') == v <==>
                  Lands(PortScheme(c), Ahead(c, op, l),
                        HeldPorts(c, op) + LooseBefore(PortScheme(c'), PortColumn(c'), l'), v))
  {
    var c', l' := Made(c, op), NowCalled(op, l);
    BasesStay(c, op);
    ColumnKeys(c');
    PinnedNext(c, op, l);
    PortsNext(c, op);
    AheadIs(c, op, l);
    hide Made, Of, Below, Lands, LooseBefore, Labels, Named, PortColumn, PortScheme, ValidLabel, Less, HeldPorts, Allowed, Ahead, NowCalled, Default, OneDefault;
    LooseExact(PortScheme(c'), PortColumn(c'), l', v);
  }

  /** The mesh called "default" is the only one that an operation leaves unpinned. */
  ghost predicate OnlyDefaultLoose(c: Config) {
    && OneDefault(c) && Default() in Labels(c) && WrittenIface(c, Default()).None? && WrittenPort(c, Default()).None?
    && (forall l :: l in Labels(c) && l != Default() ==> WrittenIface(c, l).Some? && WrittenPort(c, l).Some?)
  }

  predicate Touches(op: Op, l: string) {
    match op
    case Rename(from, _) => from == l
    case Remove(gone) => gone == l
  }

  lemma NoneElseLoose(c: Config, op: Op)
    requires OnlyDefaultLoose(c) && Allowed(c, op) && !Touches(op, Default())
    ensures var c' := Made(c, op);
            && Default() in Labels(c')
            && IfaceColumn(c').pins.Keys == PortColumn(c').pins.Keys == Labels(c') - {Default()}
  {
    var c' := Made(c, op);
    ColumnKeys(c');
    DefaultNext(c, op);
    hide *;
    forall l' | l' in Labels(c') && l' != Default()
      ensures l' in IfaceColumn(c').pins && l' in PortColumn(c').pins
    {
      OtherPinned(c, op, l');
    }
    AllBut(IfaceColumn(c'), Default());
    AllBut(PortColumn(c'), Default());
  }

  lemma DefaultNext(c: Config, op: Op)
    requires OnlyDefaultLoose(c) && Allowed(c, op) && !Touches(op, Default())
    ensures var c' := Made(c, op);
            Default() in Labels(c') && Default() !in IfaceColumn(c').pins && Default() !in PortColumn(c').pins
  {
    assert NowCalled(op, Default()) == Default();
    PinnedNext(c, op, Default());
    hide Made, Labels, Named, IfaceColumn, PortColumn, ValidLabel, WrittenIface, WrittenPort, Default, Allowed;
  }

  lemma OtherPinned(c: Config, op: Op, l': string)
    requires OnlyDefaultLoose(c) && Allowed(c, op) && !Touches(op, Default())
    requires l' in Labels(Made(c, op)) && l' != Default()
    ensures l' in IfaceColumn(Made(c, op)).pins && l' in PortColumn(Made(c, op)).pins
  {
    LabelsAfter(c, op);
    var l := WasCalled(c, op, l');
    PinnedNext(c, op, l);
    hide IfaceOf, PortOf, Made, LabelsNext, WrittenIface, WrittenPort, Labels, Named, IfaceColumn, PortColumn, ValidLabel, Default;
  }

  /** Exactly when the mesh called "default" keeps its interface over a rename or a removal,
      beside meshes that are pinned: every name from its new position up to the one it had
      is held by a mesh that is still there and its own by none, or all in reach are held
      and the position gives the one it had. */
  lemma DefaultIfaceExact(c: Config, op: Op)
    requires OnlyDefaultLoose(c) && Allowed(c, op) && !Touches(op, Default())
    ensures Default() in Labels(Made(c, op))
    ensures IfaceOf(Made(c, op), Default()) == IfaceOf(c, Default()) <==>
              Lands(IfaceScheme(c), Ahead(c, op, Default()), HeldIfaces(c, op), IfaceOf(c, Default()))
  {
    NoneElseLoose(c, op);
    IfaceAlone(c, op, Default());
  }

  lemma IfaceAlone(c: Config, op: Op, d: string)
    requires OneDefault(c) && Allowed(c, op) && !Touches(op, d) && d in Labels(c) && WrittenIface(c, d).None?
    requires d in Labels(Made(c, op)) && IfaceColumn(Made(c, op)).pins.Keys == Labels(Made(c, op)) - {d}
    ensures IfaceOf(Made(c, op), d) == IfaceOf(c, d) <==> Lands(IfaceScheme(c), Ahead(c, op, d), HeldIfaces(c, op), IfaceOf(c, d))
  {
    var c' := Made(c, op);
    BasesStay(c, op);
    ColumnKeys(c');
    IfacesNext(c, op);
    AheadIs(c, op, d);
    assert NowCalled(op, d) == d;
    hide Made, Of, Below, Lands, Labels, Named, IfaceColumn, IfaceScheme, ValidLabel, Less, HeldIfaces, WrittenIface, Allowed, Ahead, NowCalled, Default, OneDefault, Touches;
    LoneExact(IfaceScheme(c'), IfaceColumn(c'), d, IfaceOf(c, d));
  }

  /** The same for its port. */
  lemma DefaultPortExact(c: Config, op: Op)
    requires OnlyDefaultLoose(c) && Allowed(c, op) && !Touches(op, Default())
    ensures Default() in Labels(Made(c, op))
    ensures PortOf(Made(c, op), Default()) == PortOf(c, Default()) <==>
              Lands(PortScheme(c), Ahead(c, op, Default()), HeldPorts(c, op), PortOf(c, Default()))
  {
    NoneElseLoose(c, op);
    PortAlone(c, op, Default());
  }

  lemma PortAlone(c: Config, op: Op, d: string)
    requires OneDefault(c) && Allowed(c, op) && !Touches(op, d) && d in Labels(c) && WrittenPort(c, d).None?
    requires d in Labels(Made(c, op)) && PortColumn(Made(c, op)).pins.Keys == Labels(Made(c, op)) - {d}
    ensures PortOf(Made(c, op), d) == PortOf(c, d) <==> Lands(PortScheme(c), Ahead(c, op, d), HeldPorts(c, op), PortOf(c, d))
  {
    var c' := Made(c, op);
    BasesStay(c, op);
    ColumnKeys(c');
    PortsNext(c, op);
    AheadIs(c, op, d);
    assert NowCalled(op, d) == d;
    hide Made, Of, Below, Lands, Labels, Named, PortColumn, PortScheme, ValidLabel, Less, HeldPorts, WrittenPort, Allowed, Ahead, NowCalled, Default, OneDefault, Touches;
    LoneExact(PortScheme(c'), PortColumn(c'), d, PortOf(c, d));
  }

  /** A rename that stays on its side of "default" in the order: the mesh called so keeps its
      interface and port exactly when no other had it too, or nothing in reach is free and it
      is what the position gives. */
  lemma SameSideExact(c: Config, op: Op)
    requires OnlyDefaultLoose(c) && Allowed(c, op) && op.Rename? && op.from != Default()
    requires Less(op.from, Default()) == Less(op.to, Default())
    ensures Default() in Labels(Made(c, op))
    ensures KeptBeside(IfaceScheme(c), |Below(Labels(c), Default())|, HeldIfaces(c, op), IfaceOf(c, Default()), IfaceOf(Made(c, op), Default()))
    ensures KeptBeside(PortScheme(c), |Below(Labels(c), Default())|, HeldPorts(c, op), PortOf(c, Default()), PortOf(Made(c, op), Default()))
  {
    IfaceFollows(c, op);
    PortFollows(c, op);
    BasesStay(c, op);
    hide Less, Below, Of, Follows, KeptBeside, Made, OnlyDefaultLoose, Allowed, HeldIfaces, HeldPorts, Default;
    PlaceExact(IfaceScheme(c), IfaceColumn(c), IfaceColumn(Made(c, op)), Default());
    PlaceExact(PortScheme(c), PortColumn(c), PortColumn(Made(c, op)), Default());
  }

  lemma PlaceStays(c: Config, op: Op)
    requires OnlyDefaultLoose(c) && Allowed(c, op) && op.Rename? && op.from != Default()
    requires Less(op.from, Default()) == Less(op.to, Default())
    ensures Default() in Labels(Made(c, op)) && |Below(Labels(Made(c, op)), Default())| == |Below(Labels(c), Default())|
  {
    SameAhead(c, op);
    LabelsAfter(c, op);
    hide Less, Below, Made, IfaceOf, PortOf, ValidLabel;
  }

  lemma AllWritten(c: Config, l: string)
    requires OnlyDefaultLoose(c) && l in Labels(c) && l != Default()
    ensures l in Named(c) && WrittenIface(c, l) == Some(IfaceOf(c, l)) && WrittenPort(c, l) == Some(PortOf(c, l))
  {
    hide Of, Default;
  }

  lemma AllIfacesHeld(c: Config, op: Op)
    requires OnlyDefaultLoose(c) && op.Rename?
    ensures HeldIfaces(c, op) == OthersHave(IfaceScheme(c), IfaceColumn(c), Default())
  {
    var held, others := HeldIfaces(c, op), OthersHave(IfaceScheme(c), IfaceColumn(c), Default());
    ColumnKeys(c);
    assert WrittenIface(c, Default()).None?;
    forall l | l in Labels(c) - {Default()}
      ensures IfaceOf(c, l) in held
    {
      AllWritten(c, l);
    }
    forall l | l in Named(c) && WrittenIface(c, l).Some?
      ensures WrittenIface(c, l).value in others
    {
      NamedNotTop(c, l);
      AllWritten(c, l);
      assert l in IfaceColumn(c).labels - {Default()};
    }
    hide OnlyDefaultLoose, Named, Labels, IfaceColumn, PortColumn, Default, WrittenIface, Of, PortOf;
  }

  lemma AllPortsHeld(c: Config, op: Op)
    requires OnlyDefaultLoose(c) && op.Rename?
    ensures HeldPorts(c, op) == OthersHave(PortScheme(c), PortColumn(c), Default())
  {
    var held, others := HeldPorts(c, op), OthersHave(PortScheme(c), PortColumn(c), Default());
    ColumnKeys(c);
    assert WrittenPort(c, Default()).None?;
    forall l | l in Labels(c) - {Default()}
      ensures PortOf(c, l) in held
    {
      AllWritten(c, l);
    }
    forall l | l in Named(c) && WrittenPort(c, l).Some?
      ensures WrittenPort(c, l).value in others
    {
      NamedNotTop(c, l);
      AllWritten(c, l);
      assert l in PortColumn(c).labels - {Default()};
    }
    hide OnlyDefaultLoose, Named, Labels, IfaceColumn, PortColumn, Default, WrittenPort, Of, IfaceOf;
  }

  lemma IfaceFollows(c: Config, op: Op)
    requires OnlyDefaultLoose(c) && Allowed(c, op) && op.Rename? && op.from != Default()
    requires Less(op.from, Default()) == Less(op.to, Default())
    ensures Follows(IfaceScheme(c), IfaceColumn(c), IfaceColumn(Made(c, op)), Default())
    ensures IfaceColumn(Made(c, op)).pins.Values == HeldIfaces(c, op)
  {
    PlaceStays(c, op);
    NoneElseLoose(c, op);
    IfacesNext(c, op);
    AllIfacesHeld(c, op);
    ColumnKeys(c);
    ColumnKeys(Made(c, op));
    ColumnAt(c, Default());
    assert Default() in Labels(c) && Default() !in IfaceColumn(c).pins;
    hide OnlyDefaultLoose, Of, Below, Made, Less, ValidLabel, Named, Labels, IfaceColumn, HeldIfaces, Allowed, Default, OthersHave;
  }

  lemma PortFollows(c: Config, op: Op)
    requires OnlyDefaultLoose(c) && Allowed(c, op) && op.Rename? && op.from != Default()
    requires Less(op.from, Default()) == Less(op.to, Default())
    ensures Follows(PortScheme(c), PortColumn(c), PortColumn(Made(c, op)), Default())
    ensures PortColumn(Made(c, op)).pins.Values == HeldPorts(c, op)
  {
    PlaceStays(c, op);
    NoneElseLoose(c, op);
    PortsNext(c, op);
    AllPortsHeld(c, op);
    ColumnKeys(c);
    ColumnKeys(Made(c, op));
    ColumnAt(c, Default());
    assert Default() in Labels(c) && Default() !in PortColumn(c).pins;
    hide OnlyDefaultLoose, Of, Below, Made, Less, ValidLabel, Named, Labels, PortColumn, HeldPorts, Allowed, Default, OthersHave;
  }

  lemma SameAhead(c: Config, op: Op)
    requires OneDefault(c) && Allowed(c, op) && op.Rename? && op.from != Default()
    requires Less(op.from, Default()) == Less(op.to, Default())
    ensures |Below(LabelsNext(c, op), Default())| == |Below(Labels(c), Default())|
  {
    hide Less, Below, Default;
    BelowSwap(Labels(c), op.from, op.to, Default());
  }

  /** The top-level mesh is not always position zero: renaming the only other mesh to
      sort before "default" moves the top-level one off its interface and port. */
  lemma RenamePastDefaultMovesIt(c: Config, op: Op)
    requires c == Config("logos0", 51820, true, map["office" := Entry("k", "", 0)]) && op == Rename("office", "camp")
    ensures Allowed(c, op) && IfaceOf(c, Default()) == "logos0" && PortOf(c, Default()) == 51820
    ensures var c' := Made(c, op); IfaceOf(c', Default()) == "logos02" && PortOf(c', Default()) == 51822
  {
    BeforeCamp(c);
    AfterCamp(c, op);
  }

  lemma BeforeCamp(c: Config)
    requires c == Config("logos0", 51820, true, map["office" := Entry("k", "", 0)])
    ensures IfaceOf(c, Default()) == "logos0" && IfaceOf(c, "office") == "logos01"
    ensures PortOf(c, Default()) == 51820 && PortOf(c, "office") == 51821
  {
    hide Of;
    assert Labels(c) == {Default(), "office"};
    assert IfaceColumn(c).pins == map[] && PortColumn(c).pins == map[];
    assert Digits(1) == "1";
    assert "logos0" + "1" == "logos01";
    TwoLoose(IfaceScheme(c), IfaceColumn(c), Default(), "office");
    TwoLoose(PortScheme(c), PortColumn(c), Default(), "office");
  }

  lemma AfterCamp(c: Config, op: Op)
    requires c == Config("logos0", 51820, true, map["office" := Entry("k", "", 0)]) && op == Rename("office", "camp")
    requires IfaceOf(c, "office") == "logos01" && PortOf(c, "office") == 51821
    ensures Allowed(c, op)
    ensures var c' := Made(c, op); IfaceOf(c', Default()) == "logos02" && PortOf(c', Default()) == 51822
  {
    hide IfaceOf, PortOf;
    var c' := Made(c, op);
    assert c' == Config("logos0", 51820, true, map["camp" := Entry("k", "logos01", 51821)]);
    InCamp(c');
  }

  lemma InCamp(c: Config)
    requires c == Config("logos0", 51820, true, map["camp" := Entry("k", "logos01", 51821)])
    ensures IfaceOf(c, Default()) == "logos02" && PortOf(c, Default()) == 51822
  {
    hide Of;
    var labels := {Default(), "camp"};
    assert Labels(c) == labels;
    assert IfaceColumn(c).pins == map["camp" := "logos01"] && PortColumn(c).pins == map["camp" := 51821];
    assert Below(labels, Default()) == {"camp"};
    assert Digits(1) == "1" && Digits(2) == "2";
    assert "logos0" + "1" == "logos01" && "logos0" + "2" == "logos02";
    assert "logos01"[6] != "logos02"[6];
    SecondNext(IfaceScheme(c), IfaceColumn(c), "camp");
    SecondNext(PortScheme(c), PortColumn(c), "camp");
  }

  lemma SecondNext<T(!new)>(k: Scheme<T>, c: Column<T>, other: string)
    requires other != Default() && c.labels == {Default(), other} && c.pins.Keys == {other} && Below(c.labels, Default()) == {other}
    requires k.cand(1) == Some(c.pins[other]) && k.cand(2).Some? && k.cand(2) != k.cand(1)
    ensures Of(k, c, Default()) == k.cand(2).value
  {
    hide Of, Below;
    assert c.pins.Values == {c.pins[other]};
    var v := k.cand(2).value;
    assert Full(k.cand, 1, 2, c.pins.Values);
    assert Reaches(k.cand, 1, 1 + MaxMeshes, c.pins.Values, v);
    LoneExact(k, c, Default(), v);
  }

  /** A mesh whose port has wrapped to 0 cannot be pinned: with the device on the last port
      of all, the same rename hands that port to the other mesh and leaves the top-level
      one with port 0. */
  lemma RenameAtTheLastPort(c: Config, op: Op)
    requires c == Config("logos0", 65535, true, map["office" := Entry("k", "", 0)]) && op == Rename("office", "camp")
    ensures Allowed(c, op) && PortOf(c, Default()) == 65535 && PortOf(c, "office") == 0
    ensures var c' := Made(c, op); PortOf(c', "camp") == 65535 && PortOf(c', Default()) == 0
  {
    OfficeAtTheEnd(c);
    AsCamp(c, op);
    CampAtTheEnd(Made(c, op));
  }

  lemma AsCamp(c: Config, op: Op)
    requires c == Config("logos0", 65535, true, map["office" := Entry("k", "", 0)]) && op == Rename("office", "camp")
    requires PortOf(c, "office") == 0
    ensures Allowed(c, op)
    ensures var c' := Made(c, op); c'.port == 65535 && Labels(c') == {"camp", Default()} && PortColumn(c').pins == map[]
  {
    hide PortOf, IfaceOf, Made;
    var c' := Made(c, op);
    LabelsAfter(c, op);
    ColumnKeys(c');
    PinnedNext(c, op, "office");
    PinnedNext(c, op, Default());
    assert Labels(c') == {"camp", Default()};
    assert "camp" !in PortColumn(c').pins && Default() !in PortColumn(c').pins;
    hide PortColumn, Labels;
    assert PortColumn(c').pins.Keys == {};
  }

  lemma OfficeAtTheEnd(c: Config)
    requires c == Config("logos0", 65535, true, map["office" := Entry("k", "", 0)])
    ensures PortOf(c, Default()) == 65535 && PortOf(c, "office") == 0
  {
    hide Of;
    assert Labels(c) == {Default(), "office"};
    assert PortColumn(c).pins == map[];
    TwoAtTheEnd(PortScheme(c), PortColumn(c), Default(), "office");
  }

  lemma CampAtTheEnd(c: Config)
    requires c.port == 65535 && Labels(c) == {"camp", Default()} && PortColumn(c).pins == map[]
    ensures PortOf(c, "camp") == 65535 && PortOf(c, Default()) == 0
  {
    hide Of;
    TwoAtTheEnd(PortScheme(c), PortColumn(c), "camp", Default());
  }
}

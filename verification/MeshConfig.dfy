/** The config as the mesh commands change it in place (cmd/shrooms/mesh.go), and the
    loops that resolve its interfaces and ports (internal/state/meshes.go). */
module MeshConfig {
  import opened Options
  import opened Slots
  import opened Columns
  import opened MeshPins

  lemma LeastUnique(m: string, n: string, s: set<string>)
    requires IsLeast(m, s) && IsLeast(n, s)
    ensures m == n
  {
    if m != n {
      LessTrans(m, n, m);
      LessIrreflexive(m);
    }
  }

  method Least(s: set<string>) returns (m: string)
    requires s != {}
    ensures IsLeast(m, s)
  {
    m :| m in s;
    var rest := s - {m};
    while rest != {}
      invariant rest <= s && m in s && m !in rest
      invariant forall x :: x in s && x !in rest && x != m ==> Less(m, x)
      decreases |rest|
    {
      var n :| n in rest;
      LessTotal(m, n);
      if Less(n, m) {
        forall x | x in s && x !in rest && x != m
          ensures Less(n, x)
        {
          LessTrans(n, m, x);
        }
        m := n;
      }
      rest := rest - {n};
    }
  }

  lemma SortedStep(s: set<string>, m: string)
    requires IsLeast(m, s)
    ensures Sorted(s) == [m] + Sorted(s - {m})
  {
    hide Less, IsLeast;
    assert m in s by { assert IsLeast(m, s); LeastIn(m, s); }
    LeastExists(s);
    var n :| IsLeast(n, s) && Sorted(s) == [n] + Sorted(s - {n});
    LeastUnique(m, n, s);
  }

  lemma SortedNone()
    ensures Sorted({}) == []
  {
  }

  method SortLabels(labels: set<string>) returns (r: seq<string>)
    ensures r == Sorted(labels)
  {
    hide Sorted, Less, IsLeast;
    SortedNone();
    r := [];
    var rest := labels;
    while rest != {}
      invariant Sorted(labels) == r + Sorted(rest)
      decreases |rest|
    {
      var m := Least(rest);
      SortedStep(rest, m);
      r := r + [m];
      rest := rest - {m};
    }
  }

  /** freeIface and freePort. */
  method FirstFreeSlot<T(==)>(cand: nat -> Option<T>, fallback: nat -> T, i: nat, taken: set<T>) returns (v: T)
    ensures v == FreeSlot(cand, fallback, i, taken)
  {
    var n := i;
    while n < i + MaxMeshes && cand(n).Some?
      invariant i <= n <= i + MaxMeshes
      invariant Search(cand, i, i + MaxMeshes, taken) == Search(cand, n, i + MaxMeshes, taken)
    {
      if cand(n).value !in taken {
        return cand(n).value;
      }
      n := n + 1;
    }
    return fallback(i);
  }

  /** The two loops of Meshes over one column: the pins first, then the rest. */
  method ResolveColumn<T(==)>(cand: nat -> Option<T>, fallback: nat -> T, pins: seq<Option<T>>) returns (r: seq<T>)
    ensures r == Resolve(cand, fallback, pins)
  {
    var taken := TakenPins(pins);
    r := [];
    var i := 0;
    while i < |pins|
      invariant 0 <= i <= |pins|
      invariant Resolve(cand, fallback, pins) == r + Fill(cand, fallback, pins, i, taken)
    {
      hide FreeSlot, Pinned;
      ghost var rest := Fill(cand, fallback, pins, i, taken);
      var v;
      if pins[i].Some? {
        v := pins[i].value;
      } else {
        v := FirstFreeSlot(cand, fallback, i, taken);
      }
      assert rest == [v] + Fill(cand, fallback, pins, i + 1, taken + {v});
      r := r + [v];
      taken := taken + {v};
      i := i + 1;
    }
  }

  method TakenPins<T(==)>(pins: seq<Option<T>>) returns (taken: set<T>)
    ensures taken == Pinned(pins)
  {
    taken := {};
    var i := 0;
    while i < |pins|
      invariant 0 <= i <= |pins|
      invariant taken == Pinned(pins[..i])
    {
      assert pins[..i + 1] == pins[..i] + [pins[i]];
      PinnedGrows(pins[..i], pins[i]);
      if pins[i].Some? {
        taken := taken + {pins[i].value};
      }
      i := i + 1;
    }
    assert pins[..i] == pins;
  }

  lemma PinnedGrows<T>(pins: seq<Option<T>>, p: Option<T>)
    ensures Pinned(pins + [p]) == Pinned(pins) + (if p.Some? then {p.value} else {})
  {
    var all := pins + [p];
    forall v | v in Pinned(pins) + (if p.Some? then {p.value} else {})
      ensures v in Pinned(all)
    {
      if p == Some(v) {
        assert all[|pins|] == p;
      } else {
        var i :| 0 <= i < |pins| && pins[i] == Some(v);
        assert all[i] == pins[i];
      }
    }
  }

  /** What the loop of pinInterfacesAndPorts has written once it has seen `seen`. */
  ghost function PinsOf(c: Config, seen: set<string>): map<string, Entry>
    requires seen <= Labels(c)
  {
    map l | l in seen && l != Default() :: c.meshes[l].(iface := IfaceOf(c, l), port := PortOf(c, l))
  }

  lemma NoPins(c: Config)
    ensures PinsOf(c, {}) == map[]
  {
  }

  lemma PinNext(c: Config, seen: set<string>, l: string)
    requires seen <= Labels(c) && l in Labels(c)
    ensures PinsOf(c, seen + {l}) ==
              if l == Default() then PinsOf(c, seen)
              else PinsOf(c, seen)[l := c.meshes[l].(iface := IfaceOf(c, l), port := PortOf(c, l))]
  {
    hide IfaceOf, PortOf;
  }

  lemma PinAll(c: Config)
    ensures Pin(c) == c.(meshes := c.meshes + PinsOf(c, Labels(c)))
  {
    hide IfaceOf, PortOf;
    assert Pin(c).meshes == c.meshes + PinsOf(c, Labels(c));
  }

  function Seen(labels: seq<string>, i: nat): set<string>
    requires i <= |labels|
  {
    set k | 0 <= k < i :: labels[k]
  }

  lemma SeenNext(labels: seq<string>, i: nat)
    requires i < |labels|
    ensures Seen(labels, i + 1) == Seen(labels, i) + {labels[i]}
  {
  }

  lemma SeenAll(labels: seq<string>, s: set<string>)
    requires labels == Sorted(s)
    ensures Seen(labels, |labels|) == s
  {
    hide Sorted;
    forall l | l in s
      ensures l in Seen(labels, |labels|)
    {
      assert l in labels;
    }
    assert forall l :: l in Seen(labels, |labels|) ==> l in labels;
  }

  /** The loop of pinInterfacesAndPorts over the resolved meshes. */
  method WritePins(c: Config, labels: seq<string>, ifaces: seq<string>, ports: seq<nat>) returns (pinned: map<string, Entry>)
    requires labels == Sorted(Labels(c)) && |ifaces| == |ports| == |labels|
    requires forall i :: 0 <= i < |labels| ==>
               labels[i] in Labels(c) && ifaces[i] == IfaceOf(c, labels[i]) && ports[i] == PortOf(c, labels[i])
    ensures pinned == PinsOf(c, Labels(c))
  {
    hide IfaceOf, PortOf, Sorted, PinsOf, Seen;
    pinned := map[];
    assert Seen(labels, 0) == {} by { SeenNone(labels); }
    NoPins(c);
    var i := 0;
    while i < |labels|
      invariant 0 <= i <= |labels| && Seen(labels, i) <= Labels(c)
      invariant pinned == PinsOf(c, Seen(labels, i))
    {
      PinNext(c, Seen(labels, i), labels[i]);
      SeenNext(labels, i);
      if labels[i] != Default() {
        pinned := pinned[labels[i] := c.meshes[labels[i]].(iface := ifaces[i], port := ports[i])];
      }
      i := i + 1;
    }
    SeenAll(labels, Labels(c));
  }

  lemma SeenNone(labels: seq<string>)
    ensures Seen(labels, 0) == {}
  {
  }

  class ConfigFile {
    var cfg: Config

    constructor (cfg: Config)
      ensures this.cfg == cfg
    {
      this.cfg := cfg;
    }

    /** Meshes: the labels in order, with what each resolves to. */
    method Meshes() returns (labels: seq<string>, ifaces: seq<string>, ports: seq<nat>)
      ensures labels == Sorted(Labels(cfg)) && |ifaces| == |ports| == |labels|
      ensures forall i :: 0 <= i < |labels| ==>
                labels[i] in Labels(cfg) && ifaces[i] == IfaceOf(cfg, labels[i]) && ports[i] == PortOf(cfg, labels[i])
    {
      labels := SortLabels(Labels(cfg));
      var ic, pc := IfaceColumn(cfg), PortColumn(cfg);
      var ip := seq(|labels|, i requires 0 <= i < |labels| => if labels[i] in ic.pins then Some(ic.pins[labels[i]]) else None);
      var pp := seq(|labels|, i requires 0 <= i < |labels| => if labels[i] in pc.pins then Some(pc.pins[labels[i]]) else None);
      ifaces := ResolveColumn(IfaceCand(cfg.iface), IfaceAt(cfg.iface), ip);
      ports := ResolveColumn(PortCand(cfg.port), PortFrom(cfg.port), pp);
      ghost var was := labels;
      assert ip == Pins(ic) && pp == Pins(pc);
      forall i | 0 <= i < |labels|
        ensures labels[i] in Labels(cfg) && ifaces[i] == IfaceOf(cfg, labels[i]) && ports[i] == PortOf(cfg, labels[i])
      {
        OfAt(IfaceScheme(cfg), ic, i);
        OfAt(PortScheme(cfg), pc, i);
      }
    }

    /** pinInterfacesAndPorts. */
    method PinInterfacesAndPorts()
      modifies this
      ensures cfg == Pin(old(cfg))
    {
      var labels, ifaces, ports := Meshes();
      var pinned := WritePins(cfg, labels, ifaces, ports);
      PinAll(cfg);
      cfg := cfg.(meshes := cfg.meshes + pinned);
    }

    /** cmdMeshRename's effect on the config: nothing is written that does not validate. */
    method Rename(valid: Config -> bool, from: string, to: string) returns (done: bool)
      modifies this
      ensures done <==> Allowed(old(cfg), Op.Rename(from, to)) && valid(Made(old(cfg), Op.Rename(from, to)))
      ensures cfg == Apply(valid, old(cfg), Op.Rename(from, to))
    {
      var labelled := IsLabel(to);
      if from == to || !labelled || to in cfg.meshes || to == Default() || from !in cfg.meshes {
        return false;
      }
      var next := new ConfigFile(cfg);
      next.PinInterfacesAndPorts();
      var moved := next.cfg.meshes[from];
      next.cfg := next.cfg.(meshes := next.cfg.meshes - {from});
      next.cfg := next.cfg.(meshes := next.cfg.meshes[to := moved]);
      if !valid(next.cfg) {
        return false;
      }
      cfg := next.cfg;
      return true;
    }

    /** cmdMeshRemove's. */
    method Remove(valid: Config -> bool, gone: string) returns (done: bool)
      modifies this
      ensures done <==> Allowed(old(cfg), Op.Remove(gone)) && valid(Made(old(cfg), Op.Remove(gone)))
      ensures cfg == Apply(valid, old(cfg), Op.Remove(gone))
    {
      if gone !in cfg.meshes {
        return false;
      }
      var next := new ConfigFile(cfg);
      next.PinInterfacesAndPorts();
      next.cfg := next.cfg.(meshes := next.cfg.meshes - {gone});
      if !valid(next.cfg) {
        return false;
      }
      cfg := next.cfg;
      return true;
    }
  }

  /** ValidMeshLabel, with its loop. */
  method IsLabel(l: string) returns (ok: bool)
    ensures ok == ValidLabel(l)
  {
    if l == "" || |l| > 63 {
      return false;
    }
    var i := 0;
    while i < |l|
      invariant 0 <= i <= |l| && forall k :: 0 <= k < i ==> LabelChar(l[k])
    {
      if !LabelChar(l[i]) {
        return false;
      }
      i := i + 1;
    }
    return l[0] != '-' && l[|l| - 1] != '-';
  }
}

/** No two meshes of a device share an interface or a port (internal/state/meshes.go,
    Meshes, freeIface and freePort), as long as there are no more of them than the search
    looks for, and the ports do not run out. */
module MeshApart {
  import opened Options
  import opened Slots
  import opened Columns
  import opened MeshPins

  // ---------------------------------------------------------------- numbered interfaces

  function Read(d: string): nat {
    if d == [] then 0
    else 10 * Read(d[..|d| - 1]) + if '0' <= d[|d| - 1] <= '9' then d[|d| - 1] as nat - '0' as nat else 0
  }

  /** The number that follows the base name of an interface is its position. */
  lemma {:induction false} DigitsReadBack(n: nat)
    ensures Read(Digits(n)) == n
  {
    var last := "0123456789"[n % 10];
    assert last as nat - '0' as nat == n % 10;
    if n < 10 {
      assert Read([]) == 0 && [last][..0] == [];
    } else {
      DigitsReadBack(n / 10);
      assert Digits(n) == Digits(n / 10) + [last];
    }
  }

  lemma NamesDiffer(base: string, m: nat, n: nat)
    requires m != n
    ensures IfaceName(base, m) != IfaceName(base, n)
  {
    DigitsReadBack(m);
    DigitsReadBack(n);
    var a, b := IfaceName(base, m), IfaceName(base, n);
    assert m != 0 ==> a[|base|..] == Digits(m);
    assert n != 0 ==> b[|base|..] == Digits(n);
  }

  lemma NamesDistinct(base: string, k: nat)
    ensures Distinct(IfaceCand(base), k)
  {
    hide IfaceName;
    forall x, y | k <= x < y < k + 64
      ensures IfaceCand(base)(x) != IfaceCand(base)(y)
    {
      NamesDiffer(base, x, y);
    }
  }

  lemma PortsDistinct(base: nat, k: nat)
    requires k < 64 && base + 127 <= 0x1_0000
    ensures Distinct(PortCand(base), k)
  {
    forall x: nat | x < 127
      ensures PortCand(base)(x) == Some(base + x)
    {
    }
    hide PortCand;
  }

  // ---------------------------------------------------------------- every pair of meshes

  /** In one column: what a label without a pin has no other label has. */
  lemma ColumnApart<T(!new)>(k: Scheme<T>, c: Column<T>, l: string, m: string)
    requires |c.labels| <= 64 && forall i: nat :: i < 64 ==> Distinct(k.cand, i)
    requires l in c.labels && m in c.labels && l != m && l !in c.pins
    ensures Of(k, c, l) != Of(k, c, m)
  {
    hide Distinct, Resolve, Sorted;
    FewAreApart(k.cand, k.fallback, Pins(c));
    var i, j := Position(c, l), Position(c, m);
    assert Pins(c)[i].None?;
    assert Alone(Resolve(k.cand, k.fallback, Pins(c)), i);
  }

  /** With no more than sixty-four meshes, one whose interface is not pinned has one that no
      other mesh has, pinned or not. */
  lemma InterfacesApart(c: Config, l: string, m: string)
    requires |Labels(c)| <= 64 && l in Labels(c) && m in Labels(c) && l != m
    requires l in Named(c) ==> c.meshes[l].iface == ""
    ensures IfaceOf(c, l) != IfaceOf(c, m)
  {
    forall i: nat | i < 64
      ensures Distinct(IfaceScheme(c).cand, i)
    {
      NamesDistinct(c.iface, i);
    }
    hide Distinct, Of, IfaceCand;
    ColumnApart(IfaceScheme(c), IfaceColumn(c), l, m);
  }

  /** And so for its port, where the device's own leaves room for a hundred and twenty-six
      above it. */
  lemma PortsApart(c: Config, l: string, m: string)
    requires |Labels(c)| <= 64 && l in Labels(c) && m in Labels(c) && l != m && c.port + 127 <= 0x1_0000
    requires l in Named(c) ==> c.meshes[l].port == 0
    ensures PortOf(c, l) != PortOf(c, m)
  {
    forall i: nat | i < 64
      ensures Distinct(PortScheme(c).cand, i)
    {
      PortsDistinct(c.port, i);
    }
    hide Distinct, Of, PortCand;
    ColumnApart(PortScheme(c), PortColumn(c), l, m);
  }
}

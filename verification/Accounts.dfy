/** The admin directory: files and cards minted into it, renamed with their meshes
    (cmd/shrooms/admin.go, cmd/shrooms/mesh.go), and the card account each card mint
    derives its key at. */
module Accounts {
  const U32: nat := 0x1_0000_0000

  /** What a file in the directory holds: a card authority with its account, one whose
      keys are not all a card's, or nothing that parses. */
  datatype Content = Card(account: nat) | KeyFile | Unreadable

  type Dir = map<string, Content>

  /** adminPathFor. */
  function AdminFile(name: string): string {
    if name == "" || name == "default" then "admin.json" else "admin-" + name + ".json"
  }

  /** The accounts in use on some card. */
  function Used(d: Dir): set<nat> {
    set f | f in d.Keys && d[f].Card? :: d[f].account
  }

  ghost predicate IsMax(s: set<nat>, m: nat) {
    m in s && forall x :: x in s ==> x <= m
  }

  lemma MaxExists(s: set<nat>)
    requires s != {}
    ensures exists m :: IsMax(s, m)
  {
    var x :| x in s;
    if s == {x} {
      assert IsMax(s, x);
    } else {
      MaxExists(s - {x});
      var m :| IsMax(s - {x}, m);
      assert forall y :: y in s ==> y == x || y in s - {x};
      assert x < m ==> IsMax(s, m);
      assert x >= m ==> IsMax(s, x);
    }
  }

  ghost function Max(s: set<nat>): (m: nat)
    requires s != {}
    ensures IsMax(s, m)
  {
    MaxExists(s);
    var m :| IsMax(s, m);
    m
  }

  /** One more than the greatest account in use, in 32 bits; 0 when none is. */
  ghost function NextAccount(d: Dir): nat {
    if Used(d) == {} then 0 else (Max(Used(d)) + 1) % U32
  }

  /** nextAccount: the used accounts gathered entry by entry, then their maximum. */
  method FindNextAccount(d: Dir, readable: bool) returns (next: nat)
    ensures next == if readable then NextAccount(d) else 0
  {
    if !readable {
      return 0;
    }
    var used: seq<nat> := [];
    var left := d.Keys;
    while left != {}
      invariant left <= d.Keys
      invariant forall x :: x in used <==> exists f :: f in d && f !in left && d[f] == Card(x)
      decreases |left|
    {
      var f :| f in left;
      if d[f].Card? {
        used := used + [d[f].account];
      }
      left := left - {f};
    }
    assert forall x :: x in used <==> x in Used(d);
    if |used| == 0 {
      assert forall x :: x !in Used(d);
      return 0;
    }
    assert used[0] in Used(d);
    var max := used[0];
    var i := 0;
    while i < |used|
      invariant 0 <= i <= |used|
      invariant max in used && forall k :: 0 <= k < i ==> used[k] <= max
    {
      if used[i] > max {
        max := used[i];
      }
      i := i + 1;
    }
    assert IsMax(Used(d), max);
    return (max + 1) % U32;
  }

  /** Exactly when the account is one nothing uses: while there is one above all those
      that are used, or account 0 is itself unused. */
  lemma FreshExact(d: Dir)
    requires forall x :: x in Used(d) ==> x < U32
    ensures NextAccount(d) !in Used(d) <==> !(U32 - 1 in Used(d) && 0 in Used(d))
    ensures Used(d) != {} && U32 - 1 !in Used(d) ==> forall x :: x in Used(d) ==> x < NextAccount(d)
  {
  }

  // ---------------------------------------------------------------- runs

  /** The directory, the card mints that have chosen an account and not written it, those
      of them that chose before the last one written, and the accounts written so far. */
  datatype State = State(dir: Dir, choosing: map<nat, nat>, late: set<nat>, minted: seq<nat>)

  datatype Event =
    | MintFile(name: string)
    | Choose(pid: nat)
    | WriteCard(pid: nat, name: string)
    | GiveUp(pid: nat)
    | Rename(from: string, to: string)
    | RemoveMesh(name: string)

  predicate Enabled(s: State, e: Event) {
    match e
    case Choose(pid) => pid !in s.choosing
    case WriteCard(pid, _) => pid in s.choosing
    case GiveUp(pid) => pid in s.choosing
    case _ => true
  }

  /** A file mint refuses an existing file; a card mint replaces it; a rename leaves
      both where the new name is taken; removing a mesh touches no file. */
  ghost function Step(s: State, e: Event): State
    requires Enabled(s, e)
  {
    match e
    case MintFile(name) =>
      if AdminFile(name) in s.dir then s else s.(dir := s.dir[AdminFile(name) := KeyFile])
    case Choose(pid) => s.(choosing := s.choosing[pid := NextAccount(s.dir)], late := s.late - {pid})
    case WriteCard(pid, name) =>
      var choosing := s.choosing - {pid};
      State(s.dir[AdminFile(name) := Card(s.choosing[pid])], choosing, choosing.Keys, s.minted + [s.choosing[pid]])
    case GiveUp(pid) => s.(choosing := s.choosing - {pid}, late := s.late - {pid})
    case Rename(from, to) =>
      if AdminFile(from) !in s.dir || AdminFile(to) in s.dir then s
      else s.(dir := (s.dir - {AdminFile(from)})[AdminFile(to) := s.dir[AdminFile(from)]])
    case RemoveMesh(_) => s
  }

  ghost predicate Runs(s: State, es: seq<Event>)
    decreases |es|
  {
    es == [] || (Enabled(s, es[0]) && Runs(Step(s, es[0]), es[1..]))
  }

  ghost function After(s: State, es: seq<Event>): State
    requires Runs(s, es)
    decreases |es|
  {
    if es == [] then s else After(Step(s, es[0]), es[1..])
  }

  /** The last account of all is never in use when one is chosen. */
  ghost predicate Room(s: State, es: seq<Event>)
    requires Runs(s, es)
    decreases |es|
  {
    es == [] || ((es[0].Choose? ==> U32 - 1 !in Used(s.dir)) && Room(Step(s, es[0]), es[1..]))
  }

  /** Each card mint chooses its account after the one before it is written. */
  ghost predicate InTurn(s: State, es: seq<Event>)
    requires Runs(s, es)
    decreases |es|
  {
    es == [] || ((es[0].WriteCard? ==> es[0].pid !in s.late) && InTurn(Step(s, es[0]), es[1..]))
  }

  predicate Increasing(s: seq<nat>) {
    forall i, j :: 0 <= i < j < |s| ==> s[i] < s[j]
  }

  /** Those who chose since the last write have the next account of all; the others have
      none beyond the last written. */
  ghost predicate Inv(s: State) {
    && Increasing(s.minted)
    && (s.minted != [] ==> exists x :: x in Used(s.dir) && x >= s.minted[|s.minted| - 1])
    && (forall x :: x in Used(s.dir) ==> x < U32)
    && s.late <= s.choosing.Keys
    && (forall p :: p in s.choosing && p !in s.late ==> s.choosing[p] == NextAccount(s.dir) < U32 && U32 - 1 !in Used(s.dir))
    && (forall p :: p in s.late ==> s.minted != [] && s.choosing[p] <= s.minted[|s.minted| - 1])
  }

  /** Renaming a file changes no account. */
  lemma RenameUsed(d: Dir, f: string, g: string)
    requires f in d && g !in d
    ensures Used((d - {f})[g := d[f]]) == Used(d)
  {
    var d' := (d - {f})[g := d[f]];
    forall x | x in Used(d)
      ensures x in Used(d')
    {
      var h :| h in d && d[h] == Card(x);
      assert d'[if h == f then g else h] == Card(x);
    }
  }

  /** Two meshes have one admin file exactly when they are the same, or both go by no label. */
  lemma AdminFileExact(a: string, b: string)
    ensures AdminFile(a) == AdminFile(b) <==> a == b || (a in {"", "default"} && b in {"", "default"})
  {
    var fa, fb := "admin-" + a + ".json", "admin-" + b + ".json";
    assert |"admin-"| == 6 && |".json"| == 5;
    assert fa[6..|fa| - 5] == a && fb[6..|fb| - 5] == b;
    assert fa[5] == '-' && fb[5] == '-' && "admin.json"[5] == '.';
  }

  /** The label a mesh's admin file goes by after an event. */
  ghost function NameNext(s: State, e: Event, name: string): string {
    if e.Rename? && AdminFile(e.from) == AdminFile(name) && AdminFile(e.to) !in s.dir then e.to else name
  }

  ghost function NameAfter(s: State, es: seq<Event>, name: string): string
    requires Runs(s, es)
    decreases |es|
  {
    if es == [] then name else NameAfter(Step(s, es[0]), es[1..], NameNext(s, es[0], name))
  }

  /** No card is minted into the file on the way, whatever label it goes by. */
  ghost predicate LeftAlone(s: State, es: seq<Event>, name: string)
    requires Runs(s, es)
    decreases |es|
  {
    es == [] || (!(es[0].WriteCard? && AdminFile(es[0].name) == AdminFile(name))
                 && LeftAlone(Step(s, es[0]), es[1..], NameNext(s, es[0], name)))
  }

  /** Over every run of mints, renames and removals an admin file goes where its mesh goes,
      whole, until a card is minted over it. */
  lemma {:induction false} FilesFollowTheirMesh(s: State, es: seq<Event>, name: string)
    requires Runs(s, es) && AdminFile(name) in s.dir && LeftAlone(s, es, name)
    ensures var t, now := After(s, es), AdminFile(NameAfter(s, es, name));
            now in t.dir && t.dir[now] == s.dir[AdminFile(name)]
    decreases |es|
  {
    if es == [] {
    } else {
      FileFollows(s, es[0], name);
      hide AdminFile, Step;
      FilesFollowTheirMesh(Step(s, es[0]), es[1..], NameNext(s, es[0], name));
    }
  }

  lemma FileFollows(s: State, e: Event, name: string)
    requires Enabled(s, e) && AdminFile(name) in s.dir && !(e.WriteCard? && AdminFile(e.name) == AdminFile(name))
    ensures var d, now := Step(s, e).dir, AdminFile(NameNext(s, e, name));
            now in d && d[now] == s.dir[AdminFile(name)]
  {
    hide AdminFile;
  }

  /** A card that is minted is in its mesh's file with the account chosen for it, and is
      there wherever the mesh goes after. */
  lemma CardsFollowTheirMesh(s: State, pid: nat, name: string, es: seq<Event>)
    requires pid in s.choosing
    requires var t := Step(s, WriteCard(pid, name)); Runs(t, es) && LeftAlone(t, es, name)
    ensures var t := Step(s, WriteCard(pid, name));
            var u, now := After(t, es), AdminFile(NameAfter(t, es, name));
            now in u.dir && u.dir[now] == Card(s.choosing[pid])
  {
    var t := Step(s, WriteCard(pid, name));
    assert t.dir[AdminFile(name)] == Card(s.choosing[pid]);
    FilesFollowTheirMesh(t, es, name);
  }

  lemma FileUsed(d: Dir, f: string)
    requires f !in d
    ensures Used(d[f := KeyFile]) == Used(d)
  {
    forall x | x in Used(d)
      ensures x in Used(d[f := KeyFile])
    {
      var h :| h in d && d[h] == Card(x);
      assert d[f := KeyFile][h] == Card(x);
    }
  }

  lemma CardUsed(d: Dir, f: string, account: nat)
    ensures account in Used(d[f := Card(account)])
    ensures forall x :: x in Used(d[f := Card(account)]) ==> x == account || x in Used(d)
  {
    assert d[f := Card(account)][f] == Card(account);
  }

  /** The account next is above all in use. */
  lemma NextIsAbove(d: Dir)
    requires (forall x :: x in Used(d) ==> x < U32) && U32 - 1 !in Used(d)
    ensures NextAccount(d) < U32 && forall x :: x in Used(d) ==> x < NextAccount(d)
  {
  }

  lemma SameNext(d: Dir, d': Dir)
    requires Used(d) == Used(d')
    ensures NextAccount(d) == NextAccount(d')
  {
  }

  lemma WriteKeeps(s: State, pid: nat, name: string)
    requires Inv(s) && pid in s.choosing && pid !in s.late
    ensures Inv(Step(s, WriteCard(pid, name)))
  {
    hide Used, NextAccount;
    var account, minted := s.choosing[pid], s.minted;
    NextIsAbove(s.dir);
    CardUsed(s.dir, AdminFile(name), account);
    var s' := Step(s, WriteCard(pid, name));
    assert s'.minted == minted + [account] && s'.minted[|s'.minted| - 1] == account;
    assert minted != [] ==> forall i :: 0 <= i < |minted| ==> minted[i] <= minted[|minted| - 1] < account;
    assert account in Used(s'.dir) && Increasing(s'.minted);
    forall x | x in Used(s'.dir)
      ensures x < U32
    {
      assert x != account ==> x in Used(s.dir);
    }
    forall p | p in s'.late
      ensures s'.choosing[p] <= account
    {
      assert p in s.choosing && s'.choosing[p] == s.choosing[p];
    }
  }

  lemma StepKeeps(s: State, e: Event)
    requires Inv(s) && Enabled(s, e)
    requires e.Choose? ==> U32 - 1 !in Used(s.dir)
    requires e.WriteCard? ==> e.pid !in s.late
    ensures Inv(Step(s, e))
  {
    hide Used, NextAccount;
    match e
    case MintFile(name) =>
      if AdminFile(name) !in s.dir {
        FileUsed(s.dir, AdminFile(name));
        SameNext(s.dir, Step(s, e).dir);
      }
    case Choose(_) => NextIsAbove(s.dir);
    case WriteCard(pid, name) => WriteKeeps(s, pid, name);
    case Rename(from, to) =>
      if AdminFile(from) in s.dir && AdminFile(to) !in s.dir {
        RenameUsed(s.dir, AdminFile(from), AdminFile(to));
        SameNext(s.dir, Step(s, e).dir);
      }
    case _ =>
  }

  /** A late write is of an account no greater than the last. */
  lemma LateWrite(s: State, pid: nat, name: string)
    requires Inv(s) && pid in s.late
    ensures !Increasing(Step(s, WriteCard(pid, name)).minted)
  {
    hide Used, NextAccount;
    var minted := Step(s, WriteCard(pid, name)).minted;
    assert minted[|minted| - 1] <= minted[|minted| - 2];
  }

  lemma {:induction false} OrderStaysLost(s: State, es: seq<Event>)
    requires Runs(s, es) && !Increasing(s.minted)
    ensures !Increasing(After(s, es).minted)
    decreases |es|
  {
    if es == [] {
    } else {
      var t := Step(s, es[0]);
      assert s.minted <= t.minted;
      var i, j :| 0 <= i < j < |s.minted| && s.minted[i] >= s.minted[j];
      assert t.minted[i] == s.minted[i] && t.minted[j] == s.minted[j];
      OrderStaysLost(t, es[1..]);
    }
  }

  lemma {:induction false} RunExact(s: State, es: seq<Event>)
    requires Inv(s) && Runs(s, es) && Room(s, es)
    ensures Increasing(After(s, es).minted) <==> InTurn(s, es)
    decreases |es|
  {
    hide Step, Enabled;
    if es == [] {
      hide Used, NextAccount;
    } else if es[0].WriteCard? && es[0].pid in s.late {
      LateWrite(s, es[0].pid, es[0].name);
      OrderStaysLost(Step(s, es[0]), es[1..]);
    } else {
      StepKeeps(s, es[0]) by { assert Enabled(s, es[0]); }
      hide Inv, Increasing;
      RunExact(Step(s, es[0]), es[1..]);
    }
  }

  /** Over every run of mints, renames and removals in a directory, leftover files replaced
      or not, below the last account of all: each card mint gets a greater account than
      all before it exactly when each chooses after the one before it is written. */
  lemma AccountsIncreaseExact(d: Dir, es: seq<Event>)
    requires forall x :: x in Used(d) ==> x < U32
    requires var s := State(d, map[], {}, []); Runs(s, es) && Room(s, es)
    ensures var s := State(d, map[], {}, []); Increasing(After(s, es).minted) <==> InTurn(s, es)
  {
    RunExact(State(d, map[], {}, []), es);
  }

  /** Two card mints at once take the same account. */
  lemma OverlappingMintsCollide(d: Dir, a: string, b: string)
    ensures var es := [Choose(0), Choose(1), WriteCard(0, a), WriteCard(1, b)];
            var s := State(d, map[], {}, []);
            Runs(s, es) && After(s, es).minted == [NextAccount(d), NextAccount(d)]
  {
    hide NextAccount;
    var n := NextAccount(d);
    var es := [Choose(0), Choose(1), WriteCard(0, a), WriteCard(1, b)];
    var s := State(d, map[], {}, []);
    var s1 := Step(s, es[0]);
    var s2 := Step(s1, es[1]);
    assert s2.choosing == map[0 := n, 1 := n];
    var s3 := Step(s2, es[2]);
    var s4 := Step(s3, es[3]);
    assert s4.minted == [n, n];
    assert es[1..][1..][1..] == [es[3]] && es[1..][1..] == [es[2], es[3]] && es[1..] == [es[1], es[2], es[3]];
    assert After(s3, [es[3]]) == s4;
    assert After(s2, [es[2], es[3]]) == s4;
  }
}

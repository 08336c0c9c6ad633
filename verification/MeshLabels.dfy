/** Why a mesh label is what it may be (internal/state/meshes.go:508-551): it goes into a
    config key and into a DNS name, and must come out of both. */
module MeshLabels {
  import opened Options
  import MeshPins

  /** strings.Cut at the first dot. */
  function Cut(s: string): Option<(string, string)> {
    if s == [] then None
    else if s[0] == '.' then Some(([], s[1..]))
    else
      match Cut(s[1..])
      case None => None
      case Some((before, after)) => Some(([s[0]] + before, after))
  }

  /** parseMeshKey: the label and field of a key "mesh.<label>.<field>". */
  function ParseMeshKey(key: string): Option<(string, string)> {
    if !("mesh." <= key) then None
    else
      match Cut(key[|"mesh."|..])
      case None => None
      case Some((name, field)) => if name == "" || field == "" then None else Some((name, field))
  }

  function MeshKey(name: string, field: string): string {
    "mesh." + name + "." + field
  }

  lemma {:induction false} CutAtDot(name: string, rest: string)
    requires '.' !in name
    ensures Cut(name + "." + rest) == Some((name, rest))
  {
    var s := name + "." + rest;
    if name == [] {
      assert s[0] == '.' && s[1..] == rest;
    } else {
      CutAtDot(name[1..], rest);
      assert s[0] == name[0] && s[1..] == name[1..] + "." + rest;
      assert [name[0]] + name[1..] == name;
    }
  }

  lemma {:induction false} CutIsFirst(s: string)
    ensures Cut(s).Some? ==> '.' !in Cut(s).value.0 && s == Cut(s).value.0 + "." + Cut(s).value.1
    ensures Cut(s).None? ==> '.' !in s
  {
    if s == [] {
    } else if s[0] == '.' {
      assert s == [] + "." + s[1..];
    } else {
      CutIsFirst(s[1..]);
      if Cut(s[1..]).Some? {
        var (before, after) := Cut(s[1..]).value;
        assert s == [s[0]] + s[1..];
        assert [s[0]] + before + "." + after == [s[0]] + (before + "." + after);
      }
    }
  }

  /** A key comes back as the label and field it was written with if and only if neither is
      empty and the label has no dot. */
  lemma KeyReadsBack(name: string, field: string)
    ensures ParseMeshKey(MeshKey(name, field)) == Some((name, field)) <==> name != "" && field != "" && '.' !in name
  {
    var rest := name + "." + field;
    assert MeshKey(name, field)[|"mesh."|..] == rest;
    CutIsFirst(rest);
    if '.' !in name {
      CutAtDot(name, field);
    }
  }

  /** A key that is read is the one its label and field write. */
  lemma KeyWritesBack(key: string)
    ensures ParseMeshKey(key).Some? ==> MeshKey(ParseMeshKey(key).value.0, ParseMeshKey(key).value.1) == key
  {
    if "mesh." <= key {
      var rest := key[|"mesh."|..];
      assert key == "mesh." + rest;
      CutIsFirst(rest);
      if Cut(rest).Some? {
        var (name, field) := Cut(rest).value;
        assert "mesh." + name + "." + field == "mesh." + (name + "." + field);
      }
    }
  }

  /** The labels of a DNS name. */
  function DnsLabels(name: string): (r: seq<string>)
    ensures r != []
    decreases |name|
  {
    match Cut(name)
    case None => [name]
    case Some((first, rest)) => CutIsFirst(name); [first] + DnsLabels(rest)
  }

  /** A letter, digit or hyphen label of section 2.3.1 of RFC 1035 in lower case, with the
      leading digit that section 2.1 of RFC 1123 allows. */
  predicate LetterDigitHyphen(l: string) {
    1 <= |l| <= 63 && EndChar(l[0]) && EndChar(l[|l| - 1]) && forall i :: 0 < i < |l| - 1 ==> EndChar(l[i]) || l[i] == '-'
  }

  predicate EndChar(r: char) {
    'a' <= r <= 'z' || '0' <= r <= '9'
  }

  /** What is accepted for a label is exactly what a DNS name can hold; it then has no dot,
      so the key it goes into reads back and the name it goes into is of three labels. */
  lemma LabelsFit(l: string, host: string, field: string)
    requires host != "" && '.' !in host && field != ""
    ensures MeshPins.ValidLabel(l) <==> LetterDigitHyphen(l)
    ensures MeshPins.ValidLabel(l) ==> ParseMeshKey(MeshKey(l, field)) == Some((l, field))
    ensures MeshPins.ValidLabel(l) ==> DnsLabels(host + "." + (l + "." + "internal")) == [host, l, "internal"]
  {
    if MeshPins.ValidLabel(l) {
      hide DnsLabels, Cut;
      assert forall i :: 0 <= i < |l| ==> l[i] != '.';
      KeyReadsBack(l, field);
      HostReadsBack(host, l);
    }
  }

  lemma HostReadsBack(host: string, l: string)
    requires '.' !in host && '.' !in l
    ensures DnsLabels(host + "." + (l + "." + "internal")) == [host, l, "internal"]
  {
    CutAtDot(host, l + "." + "internal");
    CutAtDot(l, "internal");
    NoDot("internal");
    hide Cut;
    assert DnsLabels("internal") == ["internal"];
    assert DnsLabels(l + "." + "internal") == [l] + DnsLabels("internal");
    assert DnsLabels(host + "." + (l + "." + "internal")) == [host] + DnsLabels(l + "." + "internal");
  }

  lemma NoDot(s: string)
    requires '.' !in s
    ensures Cut(s).None?
  {
    CutIsFirst(s);
  }
}

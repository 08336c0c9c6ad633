/** Letting flags stand on either side of a positional argument: splitArgs
    (cmd/shrooms/args.go) and flagsFirst (cmd/shrooms-agent/a2a.go), in front of
    the Parse of Go's flag package. */
module Args {

  /** A flag: whether it is boolean, and which texts its Set accepts. */
  datatype Flag = Flag(isBool: bool, accepts: string -> bool)

  type FlagSet = map<string, Flag>

  /** flag.FlagSet.Var refuses any other name. */
  ghost predicate Valid(fs: FlagSet) {
    forall n :: n in fs ==> !('=' in n) && !(n != [] && n[0] == '-')
  }

  /** What parsing a command line comes to: the flags set, in order, and the words
      left over; or the first thing wrong, with the flags set before it. */
  datatype Outcome =
    | Parsed(set_: seq<(string, string)>, rest: seq<string>)
    | BadSyntax(set_: seq<(string, string)>, token: string)
    | Unknown(set_: seq<(string, string)>, name: string)
    | BadValue(set_: seq<(string, string)>, name: string, value: string)
    | Missing(set_: seq<(string, string)>, name: string)

  predicate FlagLike(a: string) {
    |a| >= 2 && a[0] == '-'
  }

  /** The token without its one or two dashes. */
  function NameOf(a: string): string
    requires FlagLike(a)
  {
    if a[1] == '-' then a[2..] else a[1..]
  }

  /** The first '=' at or after i, or |s|. */
  function Equals(s: string, i: nat): (k: nat)
    requires i <= |s|
    ensures i <= k <= |s|
    ensures '=' !in s[i..k] && (k < |s| ==> s[k] == '=')
    decreases |s| - i
  {
    if i < |s| && s[i] != '=' then Equals(s, i + 1) else i
  }

  /** One flag read by Parse from the head of args: it took `n` tokens, or failed. */
  datatype One = Took(name: string, value: string, n: nat) | Fails(what: string, name: string, value: string)

  /** FlagSet.parseOne, on a token that looks like a flag and is not "--". */
  function ParseOne(fs: FlagSet, args: seq<string>): (r: One)
    requires args != [] && FlagLike(args[0]) && args[0] != "--"
    ensures r.Took? ==> 1 <= r.n <= 2 && r.n <= |args|
    ensures r.Fails? ==> r.what == "syntax" || r.what == "unknown" || r.what == "value" || r.what == "missing"
  {
    var a := args[0];
    var body := NameOf(a);
    if body[0] == '-' || body[0] == '=' then Fails("syntax", a, "")
    else
      var e := Equals(body, 1);
      var name := body[..e];
      if name !in fs then Fails("unknown", name, "")
      else if e < |body| then Set(fs, name, body[e + 1..], 1)
      else if fs[name].isBool then Set(fs, name, "true", 1)
      else if |args| >= 2 then Set(fs, name, args[1], 2)
      else Fails("missing", name, "")
  }

  function Set(fs: FlagSet, name: string, value: string, n: nat): (r: One)
    requires name in fs && 1 <= n
    ensures r.Took? ==> r.n == n
    ensures r.Fails? ==> r.what == "value"
  {
    if fs[name].accepts(value) then Took(name, value, n) else Fails("value", name, value)
  }

  function Failure(acc: seq<(string, string)>, one: One): Outcome
    requires one.Fails?
  {
    if one.what == "syntax" then BadSyntax(acc, one.name)
    else if one.what == "unknown" then Unknown(acc, one.name)
    else if one.what == "value" then BadValue(acc, one.name, one.value)
    else Missing(acc, one.name)
  }

  /** flag.FlagSet.Parse: flags up to the first token that is not one. */
  function GoParse(fs: FlagSet, args: seq<string>, acc: seq<(string, string)>): Outcome
    decreases |args|
  {
    if args == [] || !FlagLike(args[0]) then Parsed(acc, args)
    else if args[0] == "--" then Parsed(acc, args[1..])
    else
      var one := ParseOne(fs, args);
      if one.Fails? then Failure(acc, one) else GoParse(fs, args[one.n..], acc + [(one.name, one.value)])
  }

  /** The command line read without regard to order: flags wherever they stand, the
      other tokens kept in order, and after "--" nothing is a flag. */
  function Reading(fs: FlagSet, args: seq<string>, acc: seq<(string, string)>, words: seq<string>): Outcome
    decreases |args|
  {
    if args == [] then Parsed(acc, words)
    else if args[0] == "--" then Parsed(acc, words + args[1..])
    else if !FlagLike(args[0]) then Reading(fs, args[1..], acc, words + [args[0]])
    else
      var one := ParseOne(fs, args);
      if one.Fails? then Failure(acc, one) else Reading(fs, args[one.n..], acc + [(one.name, one.value)], words)
  }

  // ---------------------------------------------------------------- splitArgs

  /** How many tokens the flag at the head of args is given. */
  function Width(fs: FlagSet, args: seq<string>): (n: nat)
    requires args != [] && FlagLike(args[0]) && args[0] != "--"
    ensures 1 <= n <= 2 && n <= |args|
  {
    var a := args[0];
    if '=' in a || NameOf(a) !in fs || fs[NameOf(a)].isBool || |args| == 1 then 1 else 2
  }

  /** The flags with their values, and the positionals. */
  function Split(fs: FlagSet, args: seq<string>): (seq<string>, seq<string>)
    decreases |args|
  {
    if args == [] then ([], [])
    else if args[0] == "--" then ([], args[1..])
    else if !FlagLike(args[0]) then var (f, p) := Split(fs, args[1..]); (f, [args[0]] + p)
    else var n := Width(fs, args); var (f, p) := Split(fs, args[n..]); (args[..n] + f, p)
  }

  function Protected(words: seq<string>): seq<string> {
    if words == [] then [] else ["--"] + words
  }

  function SplitArgs(fs: FlagSet, args: seq<string>): seq<string> {
    Split(fs, args).0 + Protected(Split(fs, args).1)
  }

  /** What Split does at position i of the command line. */
  lemma SplitAt(fs: FlagSet, args: seq<string>, i: nat)
    requires i < |args|
    ensures args[i] == "--" ==> Split(fs, args[i..]) == ([], args[i + 1..])
    ensures args[i] != "--" && !FlagLike(args[i]) ==>
              Split(fs, args[i..]) == (Split(fs, args[i + 1..]).0, [args[i]] + Split(fs, args[i + 1..]).1)
    ensures args[i] != "--" && FlagLike(args[i]) ==>
              var n := Width(fs, args[i..]);
              i + n <= |args| && Split(fs, args[i..]) == (args[i..i + n] + Split(fs, args[i + n..]).0, Split(fs, args[i + n..]).1)
  {
    hide Width, NameOf;
    assert args[i..][1..] == args[i + 1..];
    if args[i] != "--" && FlagLike(args[i]) {
      var n := Width(fs, args[i..]);
      assert args[i..][n..] == args[i + n..] && args[i..][..n] == args[i..i + n];
    }
  }

  /** The tokens a flag at position i is given, as the loop finds them. */
  method TakeFlag(fs: FlagSet, args: seq<string>, i: nat) returns (n: nat)
    requires i < |args| && FlagLike(args[i]) && args[i] != "--"
    ensures n == Width(fs, args[i..])
  {
    var a := args[i];
    if '=' in a { return 1; }
    var name := a[1..];
    if name[0] == '-' {
      name := name[1..];
    }
    if name !in fs { return 1; }
    if fs[name].isBool { return 1; }
    return if i + 1 < |args| then 2 else 1;
  }

  /** splitArgs, with its loop. */
  method DoSplitArgs(fs: FlagSet, args: seq<string>) returns (r: seq<string>)
    ensures r == SplitArgs(fs, args)
  {
    hide Split, Width, NameOf;
    ghost var (allFlags, allWords) := Split(fs, args);
    var flags, positional: seq<string>, i := [], [], 0;
    assert args[0..] == args;
    while i < |args|
      invariant 0 <= i <= |args|
      invariant flags + Split(fs, args[i..]).0 == allFlags
      invariant positional + Split(fs, args[i..]).1 == allWords
    {
      var a := args[i];
      SplitAt(fs, args, i);
      if a == "--" {
        positional := positional + args[i + 1..];
        assert flags == allFlags && positional == allWords;
        return if |positional| == 0 then flags else flags + ["--"] + positional;
      }
      if |a| < 2 || a[0] != '-' {
        Regroup(positional, [a], Split(fs, args[i + 1..]).1);
        positional := positional + [a];
        i := i + 1;
        continue;
      }
      var n := TakeFlag(fs, args, i);
      Regroup(flags, args[i..i + n], Split(fs, args[i + n..]).0);
      flags := flags + args[i..i + n];
      i := i + n;
    }
    SplitNothing(fs);
    assert args[i..] == [];
    return if |positional| == 0 then flags else flags + ["--"] + positional;
  }

  lemma Regroup(a: seq<string>, b: seq<string>, c: seq<string>)
    ensures a + (b + c) == (a + b) + c
  {
  }

  lemma SplitNothing(fs: FlagSet)
    ensures Split(fs, []) == ([], [])
  {
  }

  /** A flag takes the tokens Split gives it, and reads the same whatever follows. */
  lemma OneIsSplit(fs: FlagSet, args: seq<string>, after: seq<string>)
    requires Valid(fs) && args != [] && FlagLike(args[0]) && args[0] != "--"
    ensures ParseOne(fs, args).Took? ==> ParseOne(fs, args).n == Width(fs, args)
    ensures ParseOne(fs, args) != Fails("missing", NameOf(args[0]), "") ==>
              ParseOne(fs, args[..Width(fs, args)] + after) == ParseOne(fs, args)
    ensures ParseOne(fs, args).Fails? && ParseOne(fs, args).what == "missing" ==>
              |args| == 1 && ParseOne(fs, args) == Fails("missing", NameOf(args[0]), "") && NameOf(args[0]) in fs && !fs[NameOf(args[0])].isBool && '=' !in args[0]
  {
    var a := args[0];
    NameFacts(a);
    hide NameOf, Equals, Set;
    var other := args[..Width(fs, args)] + after;
    assert other[0] == a;
    assert Width(fs, args) == 2 ==> other[1] == args[1];
  }

  /** Where the name ends, and what that says of the token. */
  lemma NameFacts(a: string)
    requires FlagLike(a) && a != "--"
    ensures var body := NameOf(a);
            && body != [] && ('=' in a <==> '=' in body)
            && (body[0] != '-' && body[0] != '=' ==>
                  && ('=' !in body ==> Equals(body, 1) == |body| && body[..Equals(body, 1)] == body)
                  && ('=' in body ==> Equals(body, 1) < |body|))
  {
    var body := NameOf(a);
    assert '=' in a <==> '=' in body;
    if body[0] != '-' && body[0] != '=' {
      var e := Equals(body, 1);
      assert body == [body[0]] + body[1..];
      assert e == |body| ==> body[1..e] == body[1..];
    }
  }

  /** A value flag at the end of the line takes the "--" for its value. */
  lemma DashesTaken(fs: FlagSet, a: string, words: seq<string>, acc: seq<(string, string)>)
    requires FlagLike(a) && a != "--" && ParseOne(fs, [a]).Fails? && ParseOne(fs, [a]).what == "missing"
    requires forall k :: 0 <= k < |words| ==> !FlagLike(words[k])
    ensures !GoParse(fs, [a, "--"] + words, acc).Missing?
  {
    var line := [a, "--"] + words;
    var one := ParseOne(fs, line);
    assert line[0] == a && line[1] == "--";
    assert one.Took? ==> one.n == 2 && line[2..] == words;
  }

  lemma WordsOnly(fs: FlagSet, words: seq<string>, acc: seq<(string, string)>)
    ensures GoParse(fs, ["--"] + words, acc) == Parsed(acc, words)
  {
    assert (["--"] + words)[1..] == words;
  }

  /** The equality at the heart of it, from any point of the command line, and
      exactly when it holds. */
  lemma {:induction false} SplitReads(fs: FlagSet, args: seq<string>, acc: seq<(string, string)>, words: seq<string>)
    requires Valid(fs) && forall k :: 0 <= k < |words| ==> !FlagLike(words[k])
    ensures var (f, p) := Split(fs, args);
            GoParse(fs, f + Protected(words + p), acc) == Reading(fs, args, acc, words)
            <==> !(Reading(fs, args, acc, words).Missing? && words + p != [])
    decreases |args|
  {
    hide ParseOne, Width, NameOf, Valid;
    var (f, p) := Split(fs, args);
    if args == [] {
      assert f + Protected(words + p) == Protected(words) && words + p == words;
      WordsOnly(fs, words, acc);
    } else if args[0] == "--" {
      assert f + Protected(words + p) == Protected(words + p);
      WordsOnly(fs, words + p, acc);
    } else if !FlagLike(args[0]) {
      SplitReads(fs, args[1..], acc, words + [args[0]]);
      assert words + p == words + [args[0]] + Split(fs, args[1..]).1;
    } else {
      FlagReads(fs, args, acc, words);
    }
  }

  /** Both readings at a flag. */
  lemma AtFlag(fs: FlagSet, line: seq<string>, acc: seq<(string, string)>, words: seq<string>)
    requires line != [] && line[0] != "--" && FlagLike(line[0])
    ensures var one := ParseOne(fs, line);
            && GoParse(fs, line, acc) == (if one.Fails? then Failure(acc, one) else GoParse(fs, line[one.n..], acc + [(one.name, one.value)]))
            && Reading(fs, line, acc, words) ==
               (if one.Fails? then Failure(acc, one) else Reading(fs, line[one.n..], acc + [(one.name, one.value)], words))
  {
    hide ParseOne;
  }

  lemma FlagSplits(fs: FlagSet, args: seq<string>, tail: seq<string>)
    requires args != [] && args[0] != "--" && FlagLike(args[0])
    ensures var n := Width(fs, args);
            && Split(fs, args).1 == Split(fs, args[n..]).1
            && Split(fs, args).0 + tail == args[..n] + (Split(fs, args[n..]).0 + tail)
  {
    hide Width;
    Regroup(args[..Width(fs, args)], Split(fs, args[Width(fs, args)..]).0, tail);
  }

  lemma FlagReads(fs: FlagSet, args: seq<string>, acc: seq<(string, string)>, words: seq<string>)
    requires Valid(fs) && args != [] && args[0] != "--" && FlagLike(args[0])
    requires forall k :: 0 <= k < |words| ==> !FlagLike(words[k])
    ensures var (f, p) := Split(fs, args);
            GoParse(fs, f + Protected(words + p), acc) == Reading(fs, args, acc, words)
            <==> !(Reading(fs, args, acc, words).Missing? && words + p != [])
    decreases |args|, 0
  {
    hide ParseOne, Width, NameOf, Valid, GoParse, Reading, Split;
    var n, p := Width(fs, args), Split(fs, args).1;
    FlagSplits(fs, args, Protected(words + p));
    var after := Split(fs, args[n..]).0 + Protected(words + p);
    var line := args[..n] + after;
    OneIsSplit(fs, args, after);
    assert line[0] == args[0];
    AtFlag(fs, line, acc, words);
    AtFlag(fs, args, acc, words);
    var one := ParseOne(fs, args);
    if one.Took? {
      assert line[n..] == after;
      SplitReads(fs, args[n..], acc + [(one.name, one.value)], words);
    } else if one.what == "missing" {
      assert args == [args[0]];
      DanglingReads(fs, args[0], acc, words);
    }
  }

  /** A line that is one flag without its value. */
  lemma DanglingReads(fs: FlagSet, a: string, acc: seq<(string, string)>, words: seq<string>)
    requires FlagLike(a) && a != "--" && ParseOne(fs, [a]).Fails? && ParseOne(fs, [a]).what == "missing"
    requires forall k :: 0 <= k < |words| ==> !FlagLike(words[k])
    ensures Split(fs, [a]) == ([a], []) && Reading(fs, [a], acc, words).Missing?
    ensures GoParse(fs, [a] + Protected(words + []), acc) == Reading(fs, [a], acc, words) <==> words == []
  {
    hide ParseOne, NameOf;
    SplitNothing(fs);
    assert [a][..1] == [a] && [a][1..] == [] && [a] + [] == [a] && words + [] == words;
    AtFlag(fs, [a], acc, words);
    if words != [] {
      assert [a] + Protected(words) == [a, "--"] + words;
      DashesTaken(fs, a, words, acc);
    }
  }

  /** For every flag set and every command line: Parse after splitArgs sets the same
      flags in the same order, leaves the same words in the same order and fails on
      the same token as a reading that ignores order, exactly when the line does not
      end in a flag left without its value beside a positional. In that one case
      the "--" put between the halves becomes the flag's value. */
  lemma SplitArgsReads(fs: FlagSet, args: seq<string>)
    requires Valid(fs)
    ensures GoParse(fs, SplitArgs(fs, args), []) == Reading(fs, args, [], [])
            <==> !(Reading(fs, args, [], []).Missing? && Split(fs, args).1 != [])
  {
    SplitReads(fs, args, [], []);
    assert [] + Split(fs, args).1 == Split(fs, args).1;
  }

  /** The last token is a flag that takes a value and has none. */
  predicate Dangles(fs: FlagSet, args: seq<string>)
    decreases |args|
  {
    if args == [] || args[0] == "--" then false
    else if !FlagLike(args[0]) then Dangles(fs, args[1..])
    else Bare(fs, args) || Dangles(fs, args[Width(fs, args)..])
  }

  predicate Bare(fs: FlagSet, args: seq<string>)
    requires args != [] && FlagLike(args[0])
  {
    |args| == 1 && '=' !in args[0] && NameOf(args[0]) in fs && !fs[NameOf(args[0])].isBool
  }

  /** A flag keeps its tokens when more follow, unless it was left without a value. */
  lemma WidthStays(fs: FlagSet, args: seq<string>, after: seq<string>)
    requires args != [] && args[0] != "--" && FlagLike(args[0])
    requires |args| == 1 && Bare(fs, args) ==> after == []
    ensures Width(fs, args[..Width(fs, args)] + after) == Width(fs, args)
  {
    assert (args[..Width(fs, args)] + after)[0] == args[0];
  }

  lemma {:induction false} SplitAgain(fs: FlagSet, args: seq<string>, words: seq<string>)
    requires !(Dangles(fs, args) && words != [])
    ensures Split(fs, Split(fs, args).0 + Protected(words)) == (Split(fs, args).0, words)
    decreases |args|, 1
  {
    hide Width, Bare, NameOf;
    if args == [] || args[0] == "--" {
      assert [] + Protected(words) == Protected(words);
      assert words != [] ==> Protected(words)[1..] == words;
    } else if !FlagLike(args[0]) {
      SplitAgain(fs, args[1..], words);
    } else {
      SplitAgainFlag(fs, args, words);
    }
  }

  lemma {:induction false} SplitAgainFlag(fs: FlagSet, args: seq<string>, words: seq<string>)
    requires args != [] && args[0] != "--" && FlagLike(args[0])
    requires !(Dangles(fs, args) && words != [])
    ensures Split(fs, Split(fs, args).0 + Protected(words)) == (Split(fs, args).0, words)
    decreases |args|, 0
  {
    hide Width, Bare, NameOf;
    var n := Width(fs, args);
    var f := Split(fs, args[n..]).0;
    var after := f + Protected(words);
    SplitAgain(fs, args[n..], words);
    if |args| == 1 {
      assert args[n..] == [] && f == [];
    }
    WidthStays(fs, args, after);
    SplitFlag(fs, args, after, words);
    Regroup(args[..n], f, Protected(words));
  }

  lemma SplitFlag(fs: FlagSet, args: seq<string>, after: seq<string>, words: seq<string>)
    requires args != [] && args[0] != "--" && FlagLike(args[0])
    requires var n := Width(fs, args);
             Width(fs, args[..n] + after) == n && Split(fs, after) == (Split(fs, args[n..]).0, words)
    ensures Split(fs, args[..Width(fs, args)] + after) == (Split(fs, args).0, words)
  {
    hide Width, NameOf;
    var n := Width(fs, args);
    var line := args[..n] + after;
    assert line[0] == args[0] && line[n..] == after && line[..n] == args[..n];
  }

  /** A line that dangles has no "--", so its words are plain. */
  lemma {:induction false} DanglesPlain(fs: FlagSet, args: seq<string>)
    requires Dangles(fs, args)
    ensures forall k :: 0 <= k < |Split(fs, args).1| ==> !FlagLike(Split(fs, args).1[k])
    decreases |args|
  {
    hide Width, NameOf;
    if !FlagLike(args[0]) {
      DanglesPlain(fs, args[1..]);
    } else if Bare(fs, args) {
      SplitNothing(fs);
      assert args[Width(fs, args)..] == [];
    } else {
      DanglesPlain(fs, args[Width(fs, args)..]);
    }
  }

  lemma {:induction false} WordsSplit(fs: FlagSet, words: seq<string>)
    requires forall k :: 0 <= k < |words| ==> !FlagLike(words[k])
    ensures Split(fs, words) == ([], words)
  {
    if words == [] {
    } else {
      WordsSplit(fs, words[1..]);
      assert words[0] != "--" && words == [words[0]] + words[1..];
    }
  }

  /** Split again, a line that dangles gives the dashes to its last flag. */
  lemma {:induction false} DanglesAgain(fs: FlagSet, args: seq<string>, words: seq<string>)
    requires Dangles(fs, args) && forall k :: 0 <= k < |words| ==> !FlagLike(words[k])
    ensures Split(fs, Split(fs, args).0 + (["--"] + words)) == (Split(fs, args).0 + ["--"], words)
    decreases |args|
  {
    if !FlagLike(args[0]) {
      DanglesAgain(fs, args[1..], words);
    } else if Bare(fs, args) {
      BareAgain(fs, args[0], words);
      SplitNothing(fs);
      assert args == [args[0]] && args[..1] == args && args[1..] == [] && args + [] == args;
    } else {
      DanglesFlag(fs, args, words);
    }
  }

  lemma BareAgain(fs: FlagSet, a: string, words: seq<string>)
    requires FlagLike(a) && a != "--" && Bare(fs, [a]) && forall k :: 0 <= k < |words| ==> !FlagLike(words[k])
    ensures Split(fs, [a] + (["--"] + words)) == ([a] + ["--"], words)
  {
    WordsSplit(fs, words);
    hide NameOf;
    var line := [a] + (["--"] + words);
    assert line[0] == a && line[2..] == words && line[..2] == [a] + ["--"] && Width(fs, line) == 2;
    assert [a] + ["--"] + [] == [a] + ["--"];
  }

  lemma {:induction false} DanglesFlag(fs: FlagSet, args: seq<string>, words: seq<string>)
    requires Dangles(fs, args) && FlagLike(args[0]) && !Bare(fs, args) && forall k :: 0 <= k < |words| ==> !FlagLike(words[k])
    ensures Split(fs, Split(fs, args).0 + (["--"] + words)) == (Split(fs, args).0 + ["--"], words)
    decreases |args|, 0
  {
    hide Width, Bare, NameOf;
    var n := Width(fs, args);
    var f := Split(fs, args[n..]).0;
    var after := f + (["--"] + words);
    DanglesAgain(fs, args[n..], words);
    WidthStays(fs, args, after);
    var line := args[..n] + after;
    assert line[0] == args[0] && line[n..] == after && line[..n] == args[..n];
    Regroup(args[..n], f, ["--"] + words);
    Regroup(args[..n], f, ["--"]);
  }

  /** Splitting twice is splitting once exactly when the line does not end in a flag left
      without its value beside a positional; then the dashes grow with every split. */
  lemma SplitArgsIdempotent(fs: FlagSet, args: seq<string>)
    ensures SplitArgs(fs, SplitArgs(fs, args)) == SplitArgs(fs, args) <==> !(Dangles(fs, args) && Split(fs, args).1 != [])
  {
    hide Split, Dangles;
    var f, words := Split(fs, args).0, Split(fs, args).1;
    if Dangles(fs, args) && words != [] {
      DanglesPlain(fs, args);
      DanglesAgain(fs, args, words);
      assert SplitArgs(fs, args) == f + ["--"] + words == f + (["--"] + words);
      assert |SplitArgs(fs, SplitArgs(fs, args))| == |SplitArgs(fs, args)| + 1;
    } else {
      SplitAgain(fs, args, words);
      assert SplitArgs(fs, args) == f + Protected(words);
    }
  }

  /** What Parse makes of a value flag with nothing after it, and with the dashes. */
  lemma ValueFlag(fs: FlagSet, name: string, a: string, word: string)
    requires Valid(fs) && name in fs && name != "" && !fs[name].isBool && fs[name].accepts("--") && a == "--" + name
    ensures FlagLike(a) && a != "--"
    ensures ParseOne(fs, [a]) == Fails("missing", name, "")
    ensures ParseOne(fs, [a, "--", word]) == Took(name, "--", 2)
  {
    assert a[0] == '-' && a[1] == '-' && a[2..] == name;
    NameFacts(a);
    hide Equals;
  }

  lemma WordSplits(fs: FlagSet, w: string, rest: seq<string>)
    requires !FlagLike(w)
    ensures Split(fs, [w] + rest) == (Split(fs, rest).0, [w] + Split(fs, rest).1)
    ensures Reading(fs, [w] + rest, [], []) == Reading(fs, rest, [], [w])
  {
    assert ([w] + rest)[1..] == rest && [] + [w] == [w];
  }

  /** For every value flag and every word, `word --flag` with no value: the dashes put
      between the halves are taken for it. */
  lemma DanglingTakesTheDashes(fs: FlagSet, name: string, word: string)
    requires Valid(fs) && name in fs && name != "" && !fs[name].isBool && fs[name].accepts("--") && !FlagLike(word)
    ensures Reading(fs, [word, "--" + name], [], []) == Missing([], name)
    ensures GoParse(fs, SplitArgs(fs, [word, "--" + name]), []) == Parsed([(name, "--")], [word])
  {
    var a := "--" + name;
    ValueFlag(fs, name, a, word);
    WordSplits(fs, word, [a]);
    DanglingReads(fs, a, [], [word]);
    AtFlag(fs, [a], [], [word]);
    AtFlag(fs, [a, "--", word], [], []);
    hide ParseOne, NameOf, Valid, Split, Reading, FlagLike;
    assert [word, a] == [word] + [a];
    assert [a] + ["--"] + ([word] + []) == [a, "--", word];
    assert [a, "--", word][2..] == [word] && [] + [(name, "--")] == [(name, "--")];
  }

  // ---------------------------------------------------------------- flagsFirst

  /** strings.TrimLeft(a, "-") */
  function Trim(a: string): string {
    if a != [] && a[0] == '-' then Trim(a[1..]) else a
  }

  function FirstWidth(booleans: seq<string>, args: seq<string>): (n: nat)
    requires args != [] && FlagLike(args[0]) && args[0] != "--"
    ensures 1 <= n <= 2 && n <= |args|
  {
    if '=' in Trim(args[0]) || Trim(args[0]) in booleans || |args| == 1 then 1 else 2
  }

  /** The flags and the words flagsFirst parts the line into. */
  function First(booleans: seq<string>, args: seq<string>): (seq<string>, seq<string>)
    decreases |args|
  {
    if args == [] then ([], [])
    else if args[0] == "--" then ([], args[1..])
    else if !FlagLike(args[0]) then var (f, w) := First(booleans, args[1..]); (f, [args[0]] + w)
    else var n := FirstWidth(booleans, args); var (f, w) := First(booleans, args[n..]); (args[..n] + f, w)
  }

  lemma FirstAt(booleans: seq<string>, args: seq<string>, i: nat)
    requires i < |args|
    ensures args[i] == "--" ==> First(booleans, args[i..]) == ([], args[i + 1..])
    ensures args[i] != "--" && !FlagLike(args[i]) ==>
              First(booleans, args[i..]) == (First(booleans, args[i + 1..]).0, [args[i]] + First(booleans, args[i + 1..]).1)
    ensures args[i] != "--" && FlagLike(args[i]) ==>
              var n := FirstWidth(booleans, args[i..]);
              i + n <= |args| && First(booleans, args[i..]) == (args[i..i + n] + First(booleans, args[i + n..]).0, First(booleans, args[i + n..]).1)
  {
    hide FirstWidth, Trim;
    assert args[i..][1..] == args[i + 1..];
    if args[i] != "--" && FlagLike(args[i]) {
      var n := FirstWidth(booleans, args[i..]);
      assert args[i..][n..] == args[i + n..] && args[i..][..n] == args[i..i + n];
    }
  }

  /** flagsFirst, with its loop. An empty token is a word: it has no dash. */
  method FlagsFirst(args: seq<string>, booleans: seq<string>) returns (r: seq<string>)
    ensures r == First(booleans, args).0 + First(booleans, args).1
  {
    hide First, Trim;
    var flags, words: seq<string>, i := [], [], 0;
    assert args[0..] == args;
    while i < |args|
      invariant 0 <= i <= |args|
      invariant flags + First(booleans, args[i..]).0 == First(booleans, args).0
      invariant words + First(booleans, args[i..]).1 == First(booleans, args).1
    {
      var a := args[i];
      FirstAt(booleans, args, i);
      if a == "--" {
        words := words + args[i + 1..];
        return flags + words;
      }
      if !("-" <= a) || a == "-" {
        words := words + [a];
        i := i + 1;
        continue;
      }
      assert FlagLike(a);
      var name := Trim(a);
      if '=' in name || name in booleans || i + 1 >= |args| {
        assert args[i..i + 1] == [a];
        flags := flags + [a];
        i := i + 1;
        continue;
      }
      assert args[i..i + 2] == [a, args[i + 1]];
      flags := flags + [a, args[i + 1]];
      i := i + 2;
    }
    FirstNothing(booleans);
    assert args[i..] == [];
    return flags + words;
  }

  lemma FirstNothing(booleans: seq<string>)
    ensures First(booleans, []) == ([], [])
  {
  }

  lemma {:induction false} TrimKeepsEquals(a: string)
    ensures '=' in a <==> '=' in Trim(a)
    ensures (a == [] || a[0] != '-') ==> Trim(a) == a
    decreases |a|
  {
    if a == [] || a[0] != '-' {
    } else {
      TrimKeepsEquals(a[1..]);
      assert a == [a[0]] + a[1..];
    }
  }

  ghost predicate Matches(fs: FlagSet, booleans: seq<string>) {
    forall n :: n in fs ==> (fs[n].isBool <==> n in booleans)
  }

  /** On a flag the set knows, flagsFirst gives what splitArgs gives; on any other
      Parse fails there, however many tokens it was given. */
  lemma FirstIsSplit(fs: FlagSet, booleans: seq<string>, args: seq<string>)
    requires Valid(fs) && Matches(fs, booleans) && args != [] && FlagLike(args[0]) && args[0] != "--"
    ensures ParseOne(fs, args).Took? ==> FirstWidth(booleans, args) == Width(fs, args)
    ensures forall after :: ParseOne(fs, args).Fails? && ParseOne(fs, args).what != "missing" ==>
              ParseOne(fs, args[..FirstWidth(booleans, args)] + after) == ParseOne(fs, args)
  {
    var a := args[0];
    var body := NameOf(a);
    TrimKeepsEquals(a);
    TrimKeepsEquals(body);
    assert Trim(a) == Trim(body) by {
      assert Trim(a) == Trim(a[1..]);
      if a[1] == '-' {
        assert a[1..][1..] == a[2..];
      }
    }
    forall after | ParseOne(fs, args).Fails? && ParseOne(fs, args).what != "missing"
      ensures ParseOne(fs, args[..FirstWidth(booleans, args)] + after) == ParseOne(fs, args)
    {
      var other := args[..FirstWidth(booleans, args)] + after;
      assert other[0] == a;
      KnownFlag(fs, args);
    }
    OneIsSplit(fs, args, []);
    KnownFlag(fs, args);
  }

  /** A flag that Parse gets as far as setting, from a token of its own, is known by
      the whole of its name. */
  lemma KnownFlag(fs: FlagSet, args: seq<string>)
    requires Valid(fs) && args != [] && FlagLike(args[0]) && args[0] != "--"
    ensures var body := NameOf(args[0]);
            body[0] != '-' && body[0] != '=' && '=' !in body ==> Equals(body, 1) == |body| && body[..|body|] == body
  {
  }

  /** What Parse leaves over of a line whose head looks like a flag is never all of it. */
  lemma {:induction false} RestShorter(fs: FlagSet, line: seq<string>, acc: seq<(string, string)>)
    ensures var r := GoParse(fs, line, acc);
            r.Parsed? ==> |r.rest| <= |line| && (line != [] && FlagLike(line[0]) ==> |r.rest| < |line|)
    decreases |line|
  {
    hide ParseOne;
    if line == [] || !FlagLike(line[0]) || line[0] == "--" {
    } else {
      var one := ParseOne(fs, line);
      if one.Took? {
        RestShorter(fs, line[one.n..], acc + [(one.name, one.value)]);
      }
    }
  }

  /** A flag at the end of the line takes the first of the words for its value. */
  lemma WordTaken(fs: FlagSet, a: string, words: seq<string>, acc: seq<(string, string)>)
    requires FlagLike(a) && a != "--" && ParseOne(fs, [a]).Fails? && ParseOne(fs, [a]).what == "missing"
    requires words != [] && forall k :: 0 <= k < |words| ==> !FlagLike(words[k])
    ensures !GoParse(fs, [a] + words, acc).Missing?
  {
    var line := [a] + words;
    assert line[0] == a && line[1] == words[0];
    assert line[2..] == words[1..];
  }

  /** What Parse after flagsFirst must not meet: a flag left without its value beside a
      word, or a line it could read whose first word looks like a flag. */
  predicate Misread(r: Outcome, all: seq<string>) {
    all != [] && (r.Missing? || (r.Parsed? && FlagLike(all[0])))
  }

  lemma {:induction false} FirstReads(fs: FlagSet, booleans: seq<string>, args: seq<string>, acc: seq<(string, string)>, words: seq<string>)
    requires Valid(fs) && Matches(fs, booleans) && forall k :: 0 <= k < |words| ==> !FlagLike(words[k])
    ensures var all := words + First(booleans, args).1;
            GoParse(fs, First(booleans, args).0 + all, acc) == Reading(fs, args, acc, words)
            <==> !Misread(Reading(fs, args, acc, words), all)
    decreases |args|, 1
  {
    hide ParseOne, FirstWidth, NameOf, Valid, Matches, Trim;
    var (f, w) := First(booleans, args);
    if args == [] || args[0] == "--" {
      assert f + (words + w) == words + w;
      RestShorter(fs, words + w, acc);
    } else if !FlagLike(args[0]) {
      assert words + w == words + [args[0]] + First(booleans, args[1..]).1;
      FirstReads(fs, booleans, args[1..], acc, words + [args[0]]);
    } else {
      FirstReadsFlag(fs, booleans, args, acc, words);
    }
  }

  lemma {:induction false} FirstReadsFlag(fs: FlagSet, booleans: seq<string>, args: seq<string>, acc: seq<(string, string)>, words: seq<string>)
    requires Valid(fs) && Matches(fs, booleans) && forall k :: 0 <= k < |words| ==> !FlagLike(words[k])
    requires args != [] && args[0] != "--" && FlagLike(args[0])
    ensures var all := words + First(booleans, args).1;
            GoParse(fs, First(booleans, args).0 + all, acc) == Reading(fs, args, acc, words)
            <==> !Misread(Reading(fs, args, acc, words), all)
    decreases |args|, 0
  {
    hide ParseOne, FirstWidth, NameOf, Valid, Matches, Trim;
    var n := FirstWidth(booleans, args);
    var w := First(booleans, args).1;
    assert First(booleans, args) == (args[..n] + First(booleans, args[n..]).0, First(booleans, args[n..]).1);
    var after := First(booleans, args[n..]).0 + (words + w);
    var line := args[..n] + after;
    Regroup(args[..n], First(booleans, args[n..]).0, words + w);
    FirstIsSplit(fs, booleans, args);
    OneIsSplit(fs, args, after);
    var one := ParseOne(fs, args);
    assert line[0] == args[0];
    AtFlag(fs, line, acc, words);
    AtFlag(fs, args, acc, words);
    hide First, GoParse, Reading;
    if one.Took? {
      assert line[n..] == after;
      FirstReads(fs, booleans, args[n..], acc + [(one.name, one.value)], words);
    } else if one.what == "missing" {
      FirstNothing(booleans);
      assert n == 1 && args == [args[0]] && args[n..] == [] && w == [] && words + w == words && after == words;
      if words == [] {
        assert line == args;
      } else {
        assert line == [args[0]] + words;
        WordTaken(fs, args[0], words, acc);
      }
    }
  }

  /** When its booleans are the flag set's, Parse after flagsFirst reads the line as it
      reads without regard to order, exactly when it is not a line that ends in a flag
      left without its value beside a word, nor one it could read whose first word looks
      like a flag. */
  lemma FlagsFirstReads(fs: FlagSet, booleans: seq<string>, args: seq<string>)
    requires Valid(fs) && Matches(fs, booleans)
    ensures GoParse(fs, First(booleans, args).0 + First(booleans, args).1, []) == Reading(fs, args, [], [])
            <==> !Misread(Reading(fs, args, [], []), First(booleans, args).1)
  {
    assert [] + First(booleans, args).1 == First(booleans, args).1;
    FirstReads(fs, booleans, args, [], []);
  }
}

/** The phone's bounded logs and its record of how sessions ended
    (mobile/diagnostics.go). */
module SessionLogs {
  import opened Options

  // ---------------------------------------------------------------- capped files

  /** strings.IndexByte. */
  function NewlineAt(s: string): (i: int)
    ensures -1 <= i < |s| && (i >= 0 ==> s[i] == '\n') && (i < 0 ==> '\n' !in s)
    ensures forall j :: 0 <= j < i ==> s[j] != '\n'
  {
    if s == [] then -1
    else if s[0] == '\n' then 0
    else var i := NewlineAt(s[1..]); if i < 0 then -1 else i + 1
  }

  /** The newest half, from a line's start. */
  function Trimmed(text: string): string {
    var keep := text[|text| / 2..];
    var i := NewlineAt(keep);
    if i >= 0 then keep[i + 1..] else keep
  }

  function Appended(text: string, line: string, max: nat): string {
    (if |text| > max then Trimmed(text) else text) + line
  }

  /** A log file; one that is not there reads as empty. */
  class LogFile {
    var text: string

    constructor ()
      ensures text == ""
    {
      text := "";
    }

    /** appendCapped. */
    method AppendCapped(line: string, max: nat)
      modifies this
      ensures text == Appended(old(text), line, max)
    {
      if |text| > max {
        var keep := text[|text| / 2..];
        var i := 0;
        while i < |keep| && keep[i] != '\n'
          invariant 0 <= i <= |keep| && '\n' !in keep[..i]
        {
          i := i + 1;
        }
        FirstNewline(keep, i);
        if i < |keep| {
          keep := keep[i + 1..];
        }
        text := keep;
      }
      text := text + line;
    }
  }

  lemma {:induction false} FirstNewline(s: string, i: nat)
    requires i <= |s| && '\n' !in s[..i] && (i < |s| ==> s[i] == '\n')
    ensures NewlineAt(s) == if i < |s| then i else -1
    decreases |s|
  {
    if i == |s| {
      assert s[..i] == s;
    } else if i > 0 {
      assert s[0] == s[..i][0] && s[..i][1..] == s[1..][..i - 1];
      FirstNewline(s[1..], i - 1);
    }
  }

  function Written(entries: seq<string>, max: nat): string {
    if entries == [] then ""
    else Appended(Written(entries[..|entries| - 1], max), entries[|entries| - 1], max)
  }

  function History(entries: seq<string>): string {
    if entries == [] then "" else History(entries[..|entries| - 1]) + entries[|entries| - 1]
  }

  predicate EndsLine(s: string) {
    s != "" && s[|s| - 1] == '\n'
  }

  /** text is what is left of all from place k on, the start of a line. */
  ghost predicate TailFrom(text: string, all: string, k: nat) {
    k <= |all| && text == all[k..] && (k == 0 || all[k - 1] == '\n')
  }

  ghost predicate TailOf(text: string, all: string) {
    exists k: nat :: TailFrom(text, all, k)
  }

  lemma TrimIs(text: string) returns (k: nat)
    requires EndsLine(text)
    ensures 0 < k <= |text| && Trimmed(text) == text[k..] && text[k - 1] == '\n'
    ensures |Trimmed(text)| < |text| - |text| / 2
    ensures forall j :: |text| / 2 <= j < |text| && text[j] == '\n' ==> k <= j + 1
  {
    var half := |text| / 2;
    var keep := text[half..];
    assert keep[|keep| - 1] == text[|text| - 1];
    var i := NewlineAt(keep);
    hide NewlineAt, EndsLine;
    k := half + i + 1;
    assert keep[i] == text[half + i];
    assert keep[i + 1..] == text[k..];
    forall j | half <= j < |text| && text[j] == '\n'
      ensures k <= j + 1
    {
      assert keep[j - half] == text[j];
    }
  }

  /** Of the ends of a log that start a line past its middle, trimming keeps the longest. */
  lemma TrimKeepsTheMost(text: string, j: nat)
    requires EndsLine(text) && |text| / 2 < j <= |text| && text[j - 1] == '\n'
    ensures |text[j..]| <= |Trimmed(text)| && Trimmed(text)[|Trimmed(text)| - |text[j..]|..] == text[j..]
  {
    var k := TrimIs(text);
    hide Trimmed, EndsLine;
    assert text[k..][j - k..] == text[j..];
  }

  lemma TrimTail(text: string, all: string)
    requires TailOf(text, all) && EndsLine(text)
    ensures TailOf(Trimmed(text), all) && |Trimmed(text)| < |text| - |text| / 2
  {
    var c: nat :| TailFrom(text, all, c);
    var k := TrimIs(text);
    hide Trimmed, EndsLine;
    assert text[k..] == all[c + k..];
    assert text[k - 1] == all[c + k - 1];
    assert TailFrom(Trimmed(text), all, c + k);
  }

  lemma GrowTail(text: string, all: string, line: string)
    requires TailOf(text, all)
    ensures TailOf(text + line, all + line)
  {
    var c: nat :| TailFrom(text, all, c);
    assert (all + line)[c..] == text + line;
    assert TailFrom(text + line, all + line, c);
  }

  lemma EndsWithIt(text: string, line: string)
    requires EndsLine(line)
    ensures EndsLine(text + line) && (text + line)[|text + line| - |line|..] == line
  {
  }

  /** The longest a file of such entries gets: the cap and one entry, or for entries longer
      than the cap, less than two of them. */
  function Bound(max: nat, longest: nat): nat {
    if longest <= max + 1 then max + longest else 2 * longest - 1
  }

  /** Whatever was logged, the file is the end of it all from the start of a line, it ends
      with the newest entry, and it is no longer than the bound of the longest entry. */
  lemma {:induction false} FileIsATail(entries: seq<string>, max: nat, longest: nat)
    requires forall i :: 0 <= i < |entries| ==> EndsLine(entries[i]) && |entries[i]| <= longest
    ensures TailOf(Written(entries, max), History(entries))
    ensures |Written(entries, max)| <= Bound(max, longest)
    ensures entries != [] ==> EndsLine(Written(entries, max))
    ensures entries != [] ==> var last := entries[|entries| - 1];
                              |last| <= |Written(entries, max)| && Written(entries, max)[|Written(entries, max)| - |last|..] == last
    decreases |entries|
  {
    if entries == [] {
      assert TailFrom("", "", 0);
    } else {
      var before, last := entries[..|entries| - 1], entries[|entries| - 1];
      FileIsATail(before, max, longest);
      var text, all := Written(before, max), History(before);
      var kept := if |text| > max then Trimmed(text) else text;
      assert Written(entries, max) == kept + last && History(entries) == all + last;
      hide Written, History, Trimmed, EndsLine, TailOf;
      if |text| > max {
        assert EndsLine(text) by { NotEmpty(before, max); }
        TrimTail(text, all);
      }
      GrowTail(kept, all, last);
      EndsWithIt(kept, last);
    }
  }

  lemma NotEmpty(entries: seq<string>, max: nat)
    ensures entries == [] ==> Written(entries, max) == ""
  {
  }

  lemma {:induction false} HistoryGrows(entries: seq<string>, k: nat)
    requires k <= |entries|
    ensures |History(entries[..k])| <= |History(entries)|
    decreases |entries|
  {
    if k == |entries| {
      assert entries[..k] == entries;
    } else {
      var before := entries[..|entries| - 1];
      HistoryGrows(before, k);
      assert before[..k] == entries[..k];
    }
  }

  /** While all that was logged before the newest entry fits the cap, nothing is lost. */
  lemma {:induction false} NothingLostUnderTheCap(entries: seq<string>, max: nat)
    requires entries != [] ==> |History(entries[..|entries| - 1])| <= max
    ensures Written(entries, max) == History(entries)
    decreases |entries|
  {
    if entries == [] {
    } else {
      var before := entries[..|entries| - 1];
      if before != [] {
        HistoryGrows(before, |before| - 1);
      }
      NothingLostUnderTheCap(before, max);
    }
  }

  // ---------------------------------------------------------------- how sessions ended

  datatype Record = Record(started: int, version: string)

  /** One process life may end without a word. */
  datatype Event = Started(record: Record) | Stopped | Rebuilt | Died

  datatype Entry = WasKilled(record: Record) | WasStopped(record: Record) | WasRebuilt(record: Record)

  /** session.json, and every line written to stops.txt. */
  datatype Phone = Phone(marker: Option<Record>, stops: seq<Entry>)

  predicate Live(p: Phone) {
    p.marker.Some? && p.marker.value.started > 0
  }

  function Step(p: Phone, e: Event): Phone {
    match e
    case Started(r) => Phone(Some(r), if Live(p) then p.stops + [WasKilled(p.marker.value)] else p.stops)
    case Stopped => Phone(None, if Live(p) then p.stops + [WasStopped(p.marker.value)] else p.stops)
    case Rebuilt => Phone(None, if Live(p) then p.stops + [WasRebuilt(p.marker.value)] else p.stops)
    case Died => p
  }

  function After(p: Phone, es: seq<Event>): Phone
    decreases |es|
  {
    if es == [] then p else After(Step(p, es[0]), es[1..])
  }

  // ---------------------------------------------------------------- what is recorded

  /** The next thing said after this point, if any: a death says nothing. */
  function NextWord(es: seq<Event>): (word: Option<Event>)
    ensures word.Some? ==> !word.value.Died?
    decreases |es|
  {
    if es == [] then None
    else if es[0].Died? then NextWord(es[1..])
    else Some(es[0])
  }

  /** How a session is recorded to have ended, from what is said after its start. */
  function Ending(r: Record, word: Event): seq<Entry> {
    match word
    case Started(_) => [WasKilled(r)]
    case Stopped => [WasStopped(r)]
    case Rebuilt => [WasRebuilt(r)]
    case Died => []
  }

  /** Every session that something is said after, in order, with what that makes of it. */
  function Ends(es: seq<Event>): seq<Entry>
    decreases |es|
  {
    if es == [] then []
    else if es[0].Started? && es[0].record.started > 0 && NextWord(es[1..]).Some?
    then Ending(es[0].record, NextWord(es[1..]).value) + Ends(es[1..])
    else Ends(es[1..])
  }

  /** The session under way: started, and nothing said since. */
  function Current(es: seq<Event>): Option<Record>
    decreases |es|
  {
    if es == [] then None
    else if es[0].Started? && NextWord(es[1..]).None? then Some(es[0].record)
    else Current(es[1..])
  }

  lemma {:induction false} RecordsFrom(p: Phone, es: seq<Event>)
    ensures After(p, es).stops ==
              p.stops + (if Live(p) && NextWord(es).Some? then Ending(p.marker.value, NextWord(es).value) else []) + Ends(es)
    ensures After(p, es).marker == if NextWord(es).None? then p.marker else Current(es)
    decreases |es|
  {
    if es == [] {
    } else {
      RecordsFrom(Step(p, es[0]), es[1..]);
      if NextWord(es[1..]).None? {
        NoneUnderWay(es[1..]);
      }
    }
  }

  /** Over every run of starts, stops, rebuilds and deaths: the lines written are exactly
      the sessions that something was said after, in order, killed if it was another
      start, stopped or rebuilt if that was said; and the marker names the session under
      way. */
  lemma EndingsAreRecorded(es: seq<Event>)
    ensures After(Phone(None, []), es).stops == Ends(es)
    ensures After(Phone(None, []), es).marker == Current(es)
  {
    RecordsFrom(Phone(None, []), es);
    if NextWord(es).None? {
      NoneUnderWay(es);
    }
  }

  lemma {:induction false} NoneUnderWay(es: seq<Event>)
    requires NextWord(es).None?
    ensures Current(es).None?
    decreases |es|
  {
    if es == [] {
    } else {
      NoneUnderWay(es[1..]);
    }
  }

  function Killed(stops: seq<Entry>): seq<Record> {
    if stops == [] then []
    else if stops[0].WasKilled? then [stops[0].record] + Killed(stops[1..])
    else Killed(stops[1..])
  }

  /** The sessions that another start follows with no stop or rebuild between, in order. */
  function Unended(es: seq<Event>): seq<Record>
    decreases |es|
  {
    if es == [] then []
    else if es[0].Started? && es[0].record.started > 0 && NextWord(es[1..]).Some? && NextWord(es[1..]).value.Started?
    then [es[0].record] + Unended(es[1..])
    else Unended(es[1..])
  }

  lemma {:induction false} KilledEnds(es: seq<Event>)
    ensures Killed(Ends(es)) == Unended(es)
    decreases |es|
  {
    if es == [] {
    } else {
      KilledEnds(es[1..]);
      var word := NextWord(es[1..]);
      if es[0].Started? && word.Some? {
        var line := Ending(es[0].record, word.value);
        assert |line| == 1 && (line + Ends(es[1..]))[1..] == Ends(es[1..]);
      }
    }
  }

  /** KILLED is recorded for exactly the sessions that were neither stopped nor rebuilt
      before the next start. */
  lemma KilledExactly(es: seq<Event>)
    ensures Killed(After(Phone(None, []), es).stops) == Unended(es)
  {
    EndingsAreRecorded(es);
    KilledEnds(es);
  }

  lemma {:induction false} AfterNext(p: Phone, es: seq<Event>, e: Event)
    ensures After(p, es + [e]) == Step(After(p, es), e)
    decreases |es|
  {
    if es == [] {
      assert es + [e] == [e] && [e][1..] == [];
    } else {
      assert (es + [e])[1..] == es[1..] + [e];
      AfterNext(Step(p, es[0]), es[1..], e);
    }
  }

  /** The marker file and the record of stops, and what has been said so far. */
  class SessionMarker {
    var marker: Option<Record>
    var stops: seq<Entry>
    ghost var said: seq<Event>

    /** The record tells how each session ended, and the marker names the one under way. */
    ghost predicate Valid()
      reads this
    {
      stops == Ends(said) && marker == Current(said)
    }

    constructor ()
      ensures Valid() && said == []
    {
      marker := None;
      stops := [];
      said := [];
    }

    /** note says the session before this one was not ended. */
    method SessionStarted(r: Record) returns (note: bool)
      requires Valid()
      modifies this
      ensures Valid() && said == old(said) + [Started(r)] && marker == Some(r)
      ensures note <==> |Killed(stops)| > |Killed(old(stops))|
      ensures Killed(stops) == Unended(said)
    {
      Says(Started(r));
      note := false;
      if marker.Some? && marker.value.started > 0 {
        note := true;
        stops := stops + [WasKilled(marker.value)];
      }
      marker := Some(r);
      said := said + [Started(r)];
    }

    method SessionRebuilt()
      requires Valid()
      modifies this
      ensures Valid() && said == old(said) + [Rebuilt] && marker.None?
      ensures Killed(stops) == Unended(said) == Unended(old(said))
    {
      Says(Rebuilt);
      if marker.Some? && marker.value.started > 0 {
        stops := stops + [WasRebuilt(marker.value)];
      }
      marker := None;
      said := said + [Rebuilt];
    }

    method SessionStopped()
      requires Valid()
      modifies this
      ensures Valid() && said == old(said) + [Stopped] && marker.None?
      ensures Killed(stops) == Unended(said) == Unended(old(said))
    {
      Says(Stopped);
      if marker.Some? && marker.value.started > 0 {
        stops := stops + [WasStopped(marker.value)];
      }
      marker := None;
      said := said + [Stopped];
    }

    /** The process ends without a word. */
    ghost method Dies()
      requires Valid()
      modifies this`said
      ensures Valid() && said == old(said) + [Died] && stops == old(stops) && marker == old(marker)
    {
      Says(Died);
      said := said + [Died];
    }

    lemma Says(e: Event)
      requires Valid()
      ensures Ends(said + [e]) == Step(Phone(marker, stops), e).stops
      ensures Current(said + [e]) == Step(Phone(marker, stops), e).marker
      ensures Killed(stops) == Unended(said) && Killed(Ends(said + [e])) == Unended(said + [e])
      ensures Unended(said + [e]) == Unended(said) + (if e.Started? && Live(Phone(marker, stops)) then [marker.value] else [])
    {
      EndingsAreRecorded(said);
      EndingsAreRecorded(said + [e]);
      AfterNext(Phone(None, []), said, e);
      KilledEnds(said);
      KilledEnds(said + [e]);
      var line := if Live(Phone(marker, stops)) then Ending(marker.value, e) else [];
      KilledConcat(stops, line);
    }
  }

  lemma {:induction false} KilledConcat(a: seq<Entry>, b: seq<Entry>)
    ensures Killed(a + b) == Killed(a) + Killed(b)
  {
    if a == [] {
      assert a + b == b;
    } else {
      assert (a + b)[1..] == a[1..] + b;
      KilledConcat(a[1..], b);
    }
  }
}

/** The interactive duplicate-line counter of practices/main.go.

    Standard input is a sequence of lines already split by the scanner. The read
    phase counts every line, keyed by its exact text, until a line whose
    lowercase form is "exit"; the report phase then emits every line counted more
    than once together with its count. A read error is the input simply ending.
 */
module DupLines {
  import opened Lowercase

  /** The `counts` map of the program: exact line text to number of times seen. */
  type Counts = map<string, nat>

  /** Why the read loop stopped. `InputEnded` covers end of input and a read error. */
  datatype Stop = ExitCommand | InputEnded

  /** What the program writes: the echo of a counted line, the acknowledgement of
      the exit command, and one report line for a duplicated line. */
  datatype Event = Echo(text: string) | ExitAck | Duplicate(key: string, count: nat)

  // ---------------------------------------------------------------------------
  // Specification of the read phase

  /** Position of the first exit line, or the length of the input when there is none. */
  function ExitIndex(lines: seq<string>): (r: nat)
    ensures r <= |lines|
    ensures forall i :: 0 <= i < r ==> !IsExit(lines[i])
    ensures r < |lines| ==> IsExit(lines[r])
  {
    if |lines| == 0 then 0
    else if IsExit(lines[0]) then 0
    else 1 + ExitIndex(lines[1..])
  }

  /** The lines the loop counts: those before the first exit line. */
  function Counted(lines: seq<string>): seq<string>
  {
    lines[..ExitIndex(lines)]
  }

  /** Reading a missing key of a Go map gives the zero value. */
  function Get(counts: Counts, key: string): nat
  {
    if key in counts then counts[key] else 0
  }

  /** `counts[text]++`. */
  function Bump(counts: Counts, text: string): Counts
  {
    counts[text := Get(counts, text) + 1]
  }

  /** The map after counting `s`, one line after another from an empty map. */
  function Tally(s: seq<string>): Counts
  {
    if s == [] then map[] else Bump(Tally(s[..|s| - 1]), s[|s| - 1])
  }

  /** The echoes printed while counting `s`, in input order. */
  function Echoes(s: seq<string>): seq<Event>
  {
    seq(|s|, i requires 0 <= i < |s| => Echo(s[i]))
  }

  /** Everything the read phase prints: one echo per counted line, then the
      acknowledgement when an exit line stopped the loop. */
  function ReadLog(lines: seq<string>): seq<Event>
  {
    Echoes(Counted(lines)) + (if ExitIndex(lines) < |lines| then [ExitAck] else [])
  }

  /** The duplicate report as a set: Go map iteration order is unspecified. */
  function Report(counts: Counts): set<(string, nat)>
  {
    set k | k in counts && counts[k] > 1 :: (k, counts[k])
  }

  // ---------------------------------------------------------------------------
  // Properties of the specification

  /** The map holds exactly the lines seen, each with its number of occurrences. */
  lemma {:induction false} TallyMatchesMultiset(s: seq<string>)
    ensures forall k :: k in Tally(s) <==> k in multiset(s)
    ensures forall k :: k in Tally(s) ==> Tally(s)[k] == multiset(s)[k]
  {
    if s != [] {
      var init, last := s[..|s| - 1], s[|s| - 1];
      assert s == init + [last];
      TallyMatchesMultiset(init);
      assert multiset(s) == multiset(init) + multiset{last};
    }
  }

  /** Every key in the map has a count of at least one: keys only enter by `++`. */
  lemma {:induction false} TallyPositive(s: seq<string>)
    ensures forall k :: k in Tally(s) ==> Tally(s)[k] >= 1
  {
    TallyMatchesMultiset(s);
  }

  /** An exit line is never a key: the loop breaks before the increment. */
  lemma ExitLineNeverCounted(lines: seq<string>)
    ensures forall k :: k in Tally(Counted(lines)) ==> !IsExit(k)
  {
    var c := Counted(lines);
    TallyMatchesMultiset(c);
    forall k | k in Tally(c) ensures !IsExit(k) {
      assert k in multiset(c);
      var i :| 0 <= i < |c| && c[i] == k;
    }
  }

  /** Lines from the first exit line on are never counted, whatever they are. */
  lemma {:induction false} LinesAfterExitIgnored(before: seq<string>, exit: string, after: seq<string>)
    requires forall i :: 0 <= i < |before| ==> !IsExit(before[i])
    requires IsExit(exit)
    ensures Counted(before + [exit] + after) == before
    ensures Tally(Counted(before + [exit] + after)) == Tally(before)
  {
    var lines := before + [exit] + after;
    if before == [] {
      assert lines[0] == exit;
    } else {
      assert lines[0] == before[0];
      assert lines[1..] == before[1..] + [exit] + after;
      LinesAfterExitIgnored(before[1..], exit, after);
    }
  }

  /** Empty input, or an exit line first, counts nothing and reports nothing. */
  lemma NothingBeforeExit(lines: seq<string>)
    requires lines == [] || IsExit(lines[0])
    ensures Tally(Counted(lines)) == map[]
    ensures Report(Tally(Counted(lines))) == {}
  {
  }

  /** The report of a whole run: a pair is in it exactly when the line occurs more
      than once before the first exit line and the number is its occurrence count,
      so a line seen once is never reported and each key appears at most once. */
  lemma ReportOfInput(lines: seq<string>, k: string, n: nat)
    ensures (k, n) in Report(Tally(Counted(lines))) <==>
            n > 1 && n == multiset(Counted(lines))[k]
  {
    var c := Counted(lines);
    TallyMatchesMultiset(c);
    if n > 1 && n == multiset(c)[k] {
      assert k in Tally(c);
    }
  }

  /** Exit is case-insensitive but keys are case-sensitive: "A" and "a" are two
      keys, "Exit" stops the loop and the "A" after it is not counted. */
  lemma CaseOfKeysAndExit()
    ensures Counted(["A", "a", "Exit", "A"]) == ["A", "a"]
    ensures Tally(Counted(["A", "a", "Exit", "A"])) == map["A" := 1, "a" := 1]
  {
    ExitSpellings("A");
    ExitSpellings("a");
    ExitSpellings("Exit");
    LinesAfterExitIgnored(["A", "a"], "Exit", ["A"]);
    assert ["A", "a"] + ["Exit"] + ["A"] == ["A", "a", "Exit", "A"];
    assert ["A", "a"][..1] == ["A"];
  }

  /** The worked example: a, b, a, EXIT reports a with count 2 and nothing else. */
  lemma ExampleRun()
    ensures Report(Tally(Counted(["a", "b", "a", "EXIT"]))) == {("a", 2)}
  {
    var lines := ["a", "b", "a", "EXIT"];
    ExitSpellings("a");
    ExitSpellings("b");
    ExitSpellings("EXIT");
    LinesAfterExitIgnored(["a", "b", "a"], "EXIT", []);
    assert ["a", "b", "a"] + ["EXIT"] + [] == lines;
    var s := ["a", "b", "a"];
    assert s[..2] == ["a", "b"] && s[..2][..1] == ["a"] && s[..2][..1][..0] == [];
    assert Tally(["a"]) == map["a" := 1];
    assert Tally(["a", "b"]) == map["a" := 1, "b" := 1];
    assert Tally(s) == map["a" := 2, "b" := 1];
    forall p | p in Report(Tally(s)) ensures p == ("a", 2) {
    }
    assert "a" in Tally(s) && Tally(s)["a"] > 1;
  }

  // ---------------------------------------------------------------------------
  // The program

  /** The read loop (`for input.Scan()`): counts and echoes each line until an
      exit line, which is acknowledged and not counted. */
  method ReadLines(lines: seq<string>) returns (counts: Counts, log: seq<Event>, stop: Stop)
    ensures counts == Tally(Counted(lines))
    ensures stop == (if ExitIndex(lines) < |lines| then ExitCommand else InputEnded)
    ensures log == ReadLog(lines)
  {
    counts, log, stop := map[], [], InputEnded;
    var i := 0;
    while i < |lines|
      invariant i <= ExitIndex(lines)
      invariant counts == Tally(lines[..i])
      invariant log == Echoes(lines[..i])
      invariant stop == InputEnded
    {
      var text := lines[i];
      if IsExit(text) {
        log := log + [ExitAck];
        stop := ExitCommand;
        break;
      }
      assert lines[..i + 1][..i] == lines[..i];
      counts := Bump(counts, text);
      log := log + [Echo(text)];
      i := i + 1;
    }
  }

  /** The report loop (`for k, v := range counts`): visits the keys in an
      unspecified order and emits each key whose count is above one, once. */
  method ReportDuplicates(counts: Counts) returns (out: seq<Event>)
    ensures forall e :: e in out <==> e.Duplicate? && (e.key, e.count) in Report(counts)
    ensures forall i :: 0 <= i < |out| ==> out[i].Duplicate?
    ensures forall i, j :: 0 <= i < j < |out| ==> out[i].key != out[j].key
  {
    out := [];
    var rest := counts.Keys;
    while rest != {}
      invariant rest <= counts.Keys
      invariant forall e :: e in out <==>
        e.Duplicate? && e.key in counts.Keys - rest && e.count == counts[e.key] && e.count > 1
      invariant forall i :: 0 <= i < |out| ==> out[i].Duplicate? && out[i].key !in rest
      invariant forall i, j :: 0 <= i < j < |out| ==> out[i].key != out[j].key
      decreases rest
    {
      var k :| k in rest;
      if counts[k] > 1 {
        out := out + [Duplicate(k, counts[k])];
      }
      rest := rest - {k};
    }
  }

  /** The whole program: the read phase, then the report phase however the read
      phase ended. */
  method Run(lines: seq<string>) returns (log: seq<Event>, stop: Stop)
    ensures stop == ExitCommand <==> ExitIndex(lines) < |lines|
    ensures |ReadLog(lines)| <= |log| && log[..|ReadLog(lines)|] == ReadLog(lines)
    ensures forall e :: e in log[|ReadLog(lines)|..] <==>
      e.Duplicate? && (e.key, e.count) in Report(Tally(Counted(lines)))
    ensures forall i, j :: |ReadLog(lines)| <= i < j < |log| ==>
      log[i].Duplicate? && log[j].Duplicate? && log[i].key != log[j].key
  {
    var counts, readLog;
    counts, readLog, stop := ReadLines(lines);
    var report := ReportDuplicates(counts);
    log := readLog + report;
    assert log[..|readLog|] == readLog;
    assert log[|readLog|..] == report;
  }
}

/**
 * `extract_ioc_metadata`: the `key: value` lines of an IOC's `start.log`, gathered
 * into a dictionary, and the two entries a device page reads from it.
 */
module Metadata {
  import opened Text

  /** The key of a log line: the text before its first colon, stripped. */
  function KeyOf(line: string): string
    requires ':' in line
  {
    Strip(line[..FirstIndex(line, ':')])
  }

  /** The value of a log line: everything after its first colon, stripped. */
  function ValueOf(line: string): string
    requires ':' in line
  {
    Strip(line[FirstIndex(line, ':') + 1..])
  }

  /** The dictionary built from `lines` in order: colon lines add or overwrite their key. */
  function MetadataOf(lines: seq<string>): map<string, string>
  {
    if lines == [] then map[]
    else
      var m := MetadataOf(lines[..|lines| - 1]);
      var line := lines[|lines| - 1];
      if ':' in line then m[KeyOf(line) := ValueOf(line)] else m
  }

  /** `extract_ioc_metadata` over the log's text (the empty text when there is no log). */
  method ExtractMetadata(log: string) returns (metadata: map<string, string>)
    ensures metadata == MetadataOf(FileLines(log))
  {
    metadata := map[];
    var lines := FileLines(log);
    for i := 0 to |lines|
      invariant metadata == MetadataOf(lines[..i])
    {
      var line := lines[i];
      assert lines[..i + 1][..i] == lines[..i];
      if ':' in line {
        metadata := metadata[KeyOf(line) := ValueOf(line)];
      }
    }
    assert lines[..|lines|] == lines;
  }

  /** A key is present exactly when some colon line carries it. */
  lemma {:induction false} MetadataKeys(lines: seq<string>, k: string)
    ensures k in MetadataOf(lines) <==> exists i :: 0 <= i < |lines| && ':' in lines[i] && KeyOf(lines[i]) == k
  {
    if lines != [] {
      var init := lines[..|lines| - 1];
      var last := lines[|lines| - 1];
      MetadataKeys(init, k);
      if k in MetadataOf(lines) {
        if ':' in last && KeyOf(last) == k {
          assert 0 <= |lines| - 1 < |lines| && ':' in lines[|lines| - 1] && KeyOf(lines[|lines| - 1]) == k;
        } else {
          assert k in MetadataOf(init);
          var i :| 0 <= i < |init| && ':' in init[i] && KeyOf(init[i]) == k;
          assert lines[i] == init[i];
        }
      } else {
        forall i | 0 <= i < |lines| && ':' in lines[i]
          ensures KeyOf(lines[i]) != k
        {
          if i < |init| {
            assert init[i] == lines[i];
          }
        }
      }
    }
  }

  /** A colon line whose key no later colon line repeats decides that key's value: the last one wins. */
  lemma {:induction false} MetadataLastWins(lines: seq<string>, i: nat)
    requires i < |lines| && ':' in lines[i]
    requires forall j :: i < j < |lines| && ':' in lines[j] ==> KeyOf(lines[j]) != KeyOf(lines[i])
    ensures KeyOf(lines[i]) in MetadataOf(lines)
    ensures MetadataOf(lines)[KeyOf(lines[i])] == ValueOf(lines[i])
  {
    var init := lines[..|lines| - 1];
    if i < |lines| - 1 {
      assert init[i] == lines[i];
      forall j | i < j < |init| && ':' in init[j]
        ensures KeyOf(init[j]) != KeyOf(init[i])
      {
        assert init[j] == lines[j];
      }
      MetadataLastWins(init, i);
    }
  }

  /** A line is split at its first colon only: later colons stay in the value, and padding goes. */
  lemma KeyValueSplit(head: string, tail: string)
    requires ':' !in head
    ensures ':' in head + ":" + tail
    ensures KeyOf(head + ":" + tail) == Strip(head)
    ensures ValueOf(head + ":" + tail) == Strip(tail)
  {
    var line := head + ":" + tail;
    assert line[|head|] == ':';
    assert line[..|head|] == head;
    FirstIndexAt(line, ':', |head|);
    assert line[|head| + 1..] == tail;
  }

  /** A `key: value` line of the log, newline-terminated. */
  function EntryLine(entry: (string, string)): string
  {
    entry.0 + ": " + entry.1 + "\n"
  }

  function EntryLines(entries: seq<(string, string)>): seq<string>
  {
    if entries == [] then [] else EntryLines(entries[..|entries| - 1]) + [EntryLine(entries[|entries| - 1])]
  }

  /** The text of a log holding `entries` as `key: value` lines. */
  function RenderEntries(entries: seq<(string, string)>): string
  {
    Concat(EntryLines(entries))
  }

  /** The dictionary `dict(entries)`: later pairs overwrite earlier ones. */
  function DictOf(entries: seq<(string, string)>): map<string, string>
  {
    if entries == [] then map[] else DictOf(entries[..|entries| - 1])[entries[|entries| - 1].0 := entries[|entries| - 1].1]
  }

  /** A key without colons or newlines and a value without newlines, neither with surrounding whitespace. */
  predicate WellFormedEntry(entry: (string, string)) {
    ':' !in entry.0 && '\n' !in entry.0 && '\n' !in entry.1 && IsStripped(entry.0) && IsStripped(entry.1)
  }

  lemma {:induction false} EntryLinesFront(entries: seq<(string, string)>)
    requires entries != []
    ensures EntryLines(entries) == [EntryLine(entries[0])] + EntryLines(entries[1..])
    decreases |entries|
  {
    if |entries| > 1 {
      EntryLinesFront(entries[..|entries| - 1]);
      assert entries[..|entries| - 1][1..] == entries[1..][..|entries[1..]| - 1];
    } else {
      assert entries[1..] == [];
    }
  }

  /** Reading the rendered log line by line gives back exactly the entry lines. */
  lemma {:induction false} FileLinesOfEntries(entries: seq<(string, string)>)
    requires forall i :: 0 <= i < |entries| ==> WellFormedEntry(entries[i])
    ensures FileLines(RenderEntries(entries)) == EntryLines(entries)
    decreases |entries|
  {
    if entries != [] {
      EntryLinesFront(entries);
      var e := entries[0];
      var a := e.0 + ": " + e.1;
      assert EntryLine(e) == a + "\n";
      assert WellFormedEntry(e);
      assert '\n' !in a by {
        assert a == e.0 + ":" + " " + e.1;
      }
      assert RenderEntries(entries) == a + "\n" + RenderEntries(entries[1..]);
      FileLinesCons(a, RenderEntries(entries[1..]));
      FileLinesOfEntries(entries[1..]);
    }
  }

  /** One `key: value` line parses back to its key and value. */
  lemma EntryParses(e: (string, string))
    requires WellFormedEntry(e)
    ensures ':' in EntryLine(e) && KeyOf(EntryLine(e)) == e.0 && ValueOf(EntryLine(e)) == e.1
  {
    assert EntryLine(e) == e.0 + ":" + (" " + e.1 + "\n");
    KeyValueSplit(e.0, " " + e.1 + "\n");
    StripPadded([], e.0, []);
    assert [] + e.0 + [] == e.0;
    StripPadded(" ", e.1, "\n");
  }

  /** A log made of one `key: value` line without a final newline parses to that single entry. */
  lemma UnterminatedEntry(e: (string, string))
    requires WellFormedEntry(e)
    ensures MetadataOf(FileLines(e.0 + ": " + e.1)) == map[e.0 := e.1]
  {
    var a := e.0 + ": " + e.1;
    assert a == e.0 + ":" + (" " + e.1);
    assert '\n' !in a;
    assert FileLines(a) == [a];
    assert [a][..0] == [];
    KeyValueSplit(e.0, " " + e.1);
    StripPadded([], e.0, []);
    assert [] + e.0 + [] == e.0;
    StripPadded(" ", e.1, []);
    assert " " + e.1 + [] == " " + e.1;
  }

  /** Every line of `lines` holds no newline except possibly as its last character. */
  predicate SingleLines(lines: seq<string>) {
    forall i, j :: 0 <= i < |lines| && 0 <= j < |lines[i]| - 1 ==> lines[i][j] != '\n'
  }

  /** The values gathered from single lines hold no newline: the line end is stripped away. */
  lemma {:induction false} MetadataValuesOneLine(lines: seq<string>)
    requires SingleLines(lines)
    ensures forall k :: k in MetadataOf(lines) ==> '\n' !in MetadataOf(lines)[k]
  {
    if lines != [] {
      var init := lines[..|lines| - 1];
      var line := lines[|lines| - 1];
      assert SingleLines(init) by {
        forall i, j | 0 <= i < |init| && 0 <= j < |init[i]| - 1
          ensures init[i][j] != '\n'
        {
          assert init[i] == lines[i];
        }
      }
      MetadataValuesOneLine(init);
      if ':' in line {
        var k := FirstIndex(line, ':');
        var rest := line[k + 1..];
        forall j | 0 <= j < |rest| - 1
          ensures rest[j] != '\n'
        {
          assert rest[j] == lines[|lines| - 1][k + 1 + j];
        }
        StripNoNewline(rest);
      }
    }
  }

  /** The `IOC Asset` reference read from a log is a single line. */
  lemma AssetOneLine(log: string)
    ensures '\n' !in Asset(MetadataOf(FileLines(log)))
  {
    var lines := FileLines(log);
    FileLinesShape(log);
    forall i, j | 0 <= i < |lines| && 0 <= j < |lines[i]| - 1
      ensures lines[i][j] != '\n'
    {
      assert lines[i][j] == lines[i][..|lines[i]| - 1][j];
    }
    MetadataValuesOneLine(lines);
  }

  lemma {:induction false} EntriesParse(entries: seq<(string, string)>)
    requires forall i :: 0 <= i < |entries| ==> WellFormedEntry(entries[i])
    ensures MetadataOf(EntryLines(entries)) == DictOf(entries)
    decreases |entries|
  {
    if entries != [] {
      var init := entries[..|entries| - 1];
      var e := entries[|entries| - 1];
      EntriesParse(init);
      var lines := EntryLines(entries);
      assert lines[..|lines| - 1] == EntryLines(init);
      EntryParses(e);
    }
  }

  /**
   * Round trip: a log written as `key: value` lines, with colon-free stripped keys and
   * stripped values (which may themselves hold colons), parses back to `dict(entries)`.
   */
  lemma MetadataRoundTrip(entries: seq<(string, string)>)
    requires forall i :: 0 <= i < |entries| ==> WellFormedEntry(entries[i])
    ensures MetadataOf(FileLines(RenderEntries(entries))) == DictOf(entries)
  {
    FileLinesOfEntries(entries);
    EntriesParse(entries);
  }

  /** `metadata.get('IOC Device Group', 'other')`. */
  function DevGroup(metadata: map<string, string>): string
  {
    if "IOC Device Group" in metadata then metadata["IOC Device Group"] else "other"
  }

  /** `metadata.get('IOC Asset', '')`. */
  function Asset(metadata: map<string, string>): string
  {
    if "IOC Asset" in metadata then metadata["IOC Asset"] else ""
  }

  /** A log without an `IOC Device Group` line (a missing log in particular) puts the device in group "other" and gives no asset when it has no `IOC Asset` line. */
  lemma MetadataDefaults(log: string)
    ensures (forall i :: 0 <= i < |FileLines(log)| && ':' in FileLines(log)[i] ==> KeyOf(FileLines(log)[i]) != "IOC Device Group")
            ==> DevGroup(MetadataOf(FileLines(log))) == "other"
    ensures (forall i :: 0 <= i < |FileLines(log)| && ':' in FileLines(log)[i] ==> KeyOf(FileLines(log)[i]) != "IOC Asset")
            ==> Asset(MetadataOf(FileLines(log))) == ""
    ensures log == [] ==> DevGroup(MetadataOf(FileLines(log))) == "other" && Asset(MetadataOf(FileLines(log))) == ""
  {
    MetadataKeys(FileLines(log), "IOC Device Group");
    MetadataKeys(FileLines(log), "IOC Asset");
  }

  /** The single entry `IOC Device Group` / `Vacuum` renders as the line `IOC Device Group: Vacuum`. */
  lemma VacuumLine()
    ensures RenderEntries([("IOC Device Group", "Vacuum")]) == "IOC Device Group: Vacuum\n"
  {
    var entries := [("IOC Device Group", "Vacuum")];
    assert EntryLines(entries[..0]) == [];
  }

  /** A `start.log` holding the line `IOC Device Group: Vacuum` gives the page the group "Vacuum". */
  lemma DevGroupFromLog()
    ensures DevGroup(MetadataOf(FileLines("IOC Device Group: Vacuum\n"))) == "Vacuum"
  {
    var entries := [("IOC Device Group", "Vacuum")];
    VacuumLine();
    assert WellFormedEntry(entries[0]);
    MetadataRoundTrip(entries);
    assert DictOf(entries[..0]) == map[];
  }

  /** The same line without a final newline gives the same group. */
  lemma DevGroupFromUnterminatedLog()
    ensures DevGroup(MetadataOf(FileLines("IOC Device Group: Vacuum"))) == "Vacuum"
  {
    var e := ("IOC Device Group", "Vacuum");
    assert WellFormedEntry(e);
    UnterminatedEntry(e);
    assert e.0 + ": " + e.1 == "IOC Device Group: Vacuum";
  }
}

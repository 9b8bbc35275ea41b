/** The table extractor of app.py (`extract_table`): it reads pipe-delimited lines of a
    model response as a table of headers and rows. */
module TableExtraction {
  import opened Text

  /** A table as the chat reply carries it; rows may be ragged. */
  datatype Table = Table(headers: seq<string>, rows: seq<seq<string>>)

  /** `NoTableDetected` stands for the `ValueError` the source raises. */
  datatype Extraction = Extracted(table: Table) | NoTableDetected

  /** A line is kept when it holds a `|` and its lower-cased text mentions neither
      "customize" nor "spreadsheet" (those are instructions, not table rows). */
  predicate KeepLine(line: string) {
    '|' in line && !Contains(Lower(line), "customize") && !Contains(Lower(line), "spreadsheet")
  }

  /** The kept lines, in input order; defined from the end, as the loop appends. */
  function Kept(lines: seq<string>): (kept: seq<string>)
    ensures |kept| <= |lines|
    ensures forall k :: 0 <= k < |kept| ==> KeepLine(kept[k])
    decreases |lines|
  {
    if lines == [] then []
    else
      var last := lines[|lines| - 1];
      Kept(lines[..|lines| - 1]) + (if KeepLine(last) then [last] else [])
  }

  /** The lines of the trimmed response text. */
  function Lines(text: string): seq<string> {
    Split(Strip(text), '\n')
  }

  function TableLines(text: string): seq<string> {
    Kept(Lines(text))
  }

  /** The trimmed fields of one line split on every `|`. */
  function Fields(line: string): (cells: seq<string>)
    ensures |cells| == Occurrences(line, '|') + 1
    ensures forall k :: 0 <= k < |cells| ==> IsTrimmed(cells[k]) && '|' !in cells[k]
    ensures forall k :: 0 <= k < |cells| ==> cells[k] == Strip(Split(line, '|')[k])
  {
    var parts := Split(line, '|');
    var cells := seq(|parts|, k requires 0 <= k < |parts| => Strip(parts[k]));
    assert forall k :: 0 <= k < |cells| ==> '|' !in cells[k] by {
      forall k | 0 <= k < |cells|
        ensures '|' !in cells[k]
      {
        StripKeepsOut(parts[k], '|');
      }
    }
    cells
  }

  /** One row of fields per line, in order. */
  function RowsOf(lines: seq<string>): (rows: seq<seq<string>>)
    ensures |rows| == |lines|
    ensures forall i :: 0 <= i < |rows| ==> |rows[i]| == Occurrences(lines[i], '|') + 1
    ensures forall i, k :: 0 <= i < |rows| && 0 <= k < |rows[i]| ==> IsTrimmed(rows[i][k])
  {
    seq(|lines|, i requires 0 <= i < |lines| => Fields(lines[i]))
  }

  /** What `extract_table` returns for a response text. */
  function ParseTable(text: string): (r: Extraction)
    ensures r.NoTableDetected? <==> TableLines(text) == []
    ensures r.Extracted? ==>
      |r.table.rows| == |TableLines(text)| - 1 &&
      |r.table.headers| == Occurrences(TableLines(text)[0], '|') + 1
  {
    var kept := TableLines(text);
    if kept == [] then NoTableDetected
    else Extracted(Table(Fields(kept[0]), RowsOf(kept[1..])))
  }

  /** `extract_table`: filter the lines with a loop, then build headers and rows. */
  method ExtractTable(responseText: string) returns (result: Extraction)
    ensures result == ParseTable(responseText)
  {
    var lines := Split(Strip(responseText), '\n');
    var tableLines: seq<string> := [];
    for i := 0 to |lines|
      invariant tableLines == Kept(lines[..i])
    {
      assert lines[..i + 1][..i] == lines[..i];
      if KeepLine(lines[i]) {
        tableLines := tableLines + [lines[i]];
      }
    }
    assert lines[..|lines|] == lines;
    if tableLines == [] {
      return NoTableDetected;
    }
    var headers := Fields(tableLines[0]);
    var rows := RowsOf(tableLines[1..]);
    result := Extracted(Table(headers, rows));
  }

  /** The filter distributes over concatenation, so kept lines keep their input order. */
  lemma {:induction false} KeptAppend(a: seq<string>, b: seq<string>)
    ensures Kept(a + b) == Kept(a) + Kept(b)
    decreases |b|
  {
    if b == [] {
      assert a + b == a;
    } else {
      var init := b[..|b| - 1];
      assert (a + b)[..|a + b| - 1] == a + init;
      KeptAppend(a, init);
    }
  }

  /** A line is kept exactly when it is one of the input lines and passes the filter. */
  lemma {:induction false} KeptMembers(lines: seq<string>)
    ensures forall l :: l in Kept(lines) <==> l in lines && KeepLine(l)
    decreases |lines|
  {
    if lines != [] {
      var init := lines[..|lines| - 1];
      KeptMembers(init);
      assert lines == init + [lines[|lines| - 1]];
    }
  }

  /** Extraction fails exactly when no line of the trimmed text passes the filter. */
  lemma NoTableIff(text: string)
    ensures ParseTable(text) == NoTableDetected <==> forall l :: l in Lines(text) ==> !KeepLine(l)
  {
    var kept := TableLines(text);
    KeptMembers(Lines(text));
    if kept != [] {
      assert kept[0] in kept;
    }
  }

  /** Text without any `|` never yields a table. */
  lemma NoPipeNoTable(text: string)
    requires '|' !in text
    ensures ParseTable(text) == NoTableDetected
  {
    StripKeepsOut(text, '|');
    SplitKeepsOut(Strip(text), '\n', '|');
    NoTableIff(text);
  }

  /** Every kept line holds a `|`, mentions neither "customize" nor "spreadsheet" in
      lower case, and comes from the text's lines. */
  lemma TableLinesFiltered(text: string)
    ensures forall l :: l in TableLines(text) ==>
      l in Lines(text) && '|' in l && !Contains(Lower(l), "customize") && !Contains(Lower(l), "spreadsheet")
  {
    KeptMembers(Lines(text));
  }

  /** On success the headers come from the first kept line and there is one row per later
      kept line, in order; each field list has one more entry than its line has `|`s, and
      every header and cell is trimmed. */
  lemma ExtractedShape(text: string)
    requires ParseTable(text).Extracted?
    ensures var kept := TableLines(text);
      var t := ParseTable(text).table;
      |kept| > 0 && t.headers == Fields(kept[0]) &&
      |t.headers| == Occurrences(kept[0], '|') + 1 &&
      |t.rows| == |kept| - 1 &&
      (forall i :: 0 <= i < |t.rows| ==> t.rows[i] == Fields(kept[i + 1])) &&
      (forall i :: 0 <= i < |t.rows| ==> |t.rows[i]| == Occurrences(kept[i + 1], '|') + 1)
    ensures var t := ParseTable(text).table;
      (forall k :: 0 <= k < |t.headers| ==> IsTrimmed(t.headers[k])) &&
      (forall i, k :: 0 <= i < |t.rows| && 0 <= k < |t.rows[i]| ==> IsTrimmed(t.rows[i][k]))
  {
    var kept := TableLines(text);
    var t := ParseTable(text).table;
    forall i | 0 <= i < |t.rows|
      ensures t.rows[i] == Fields(kept[i + 1])
    {
      assert kept[1..][i] == kept[i + 1];
    }
  }
}

/** Worked examples of `extract_table`, each reduced to small generic facts about
    stripping, splitting and filtering. */
module TableExamples {
  import opened Text
  import opened TableExtraction

  lemma StripTrimmed(r: string)
    requires IsTrimmed(r)
    ensures Strip(r) == r
  {
  }

  lemma StripSpaceAfter(a: string)
    requires IsTrimmed(a)
    ensures Strip(a + " ") == a
  {
    var s := a + " ";
    assert s[..|s| - 1] == a;
  }

  lemma StripSpaceBefore(b: string)
    requires IsTrimmed(b)
    ensures Strip(" " + b) == b
  {
    var s := " " + b;
    assert s[1..] == b;
  }

  /** Splitting `x`, separator, `y` where neither part holds the separator. */
  lemma SplitPair(x: string, y: string, sep: char)
    requires sep !in x && sep !in y
    ensures Split(x + [sep] + y, sep) == [x, y]
  {
    SplitAtSeparator(x, y, sep);
    SplitNoSeparator(y, sep);
  }

  lemma SplitTriple(x: string, y: string, z: string, sep: char)
    requires sep !in x && sep !in y && sep !in z
    ensures Split(x + [sep] + y + [sep] + z, sep) == [x, y, z]
  {
    assert x + [sep] + y + [sep] + z == x + [sep] + (y + [sep] + z);
    SplitAtSeparator(x, y + [sep] + z, sep);
    SplitPair(y, z, sep);
  }

  /** The fields of a line with one `|`, from the strips of its two parts. */
  lemma FieldsOfTwo(line: string, x: string, y: string, a: string, b: string)
    requires Split(line, '|') == [x, y] && Strip(x) == a && Strip(y) == b
    ensures Fields(line) == [a, b]
  {
    var f := Fields(line);
    assert |f| == 2 && f[0] == a && f[1] == b;
  }

  /** The fields of `a | b` for trimmed `a` and `b` without `|`. */
  lemma FieldsOfSpacedPair(a: string, b: string)
    requires IsTrimmed(a) && IsTrimmed(b) && '|' !in a && '|' !in b
    ensures Fields(a + " | " + b) == [a, b]
  {
    var x, y := a + " ", " " + b;
    assert a + " | " + b == x + ['|'] + y;
    SplitPair(x, y, '|');
    StripSpaceAfter(a);
    StripSpaceBefore(b);
    FieldsOfTwo(x + ['|'] + y, x, y, a, b);
  }

  /** The fields of `a|b` for trimmed `a` and `b` without `|`. */
  lemma FieldsOfBarePair(a: string, b: string)
    requires IsTrimmed(a) && IsTrimmed(b) && '|' !in a && '|' !in b
    ensures Fields(a + "|" + b) == [a, b]
  {
    assert a + "|" + b == a + ['|'] + b;
    SplitPair(a, b, '|');
    StripTrimmed(a);
    StripTrimmed(b);
    FieldsOfTwo(a + ['|'] + b, a, b, a, b);
  }

  /** The fields of `a|b|c` for trimmed `a`, `b` and `c` without `|`. */
  lemma FieldsOfBareTriple(a: string, b: string, c: string)
    requires IsTrimmed(a) && IsTrimmed(b) && IsTrimmed(c) && '|' !in a && '|' !in b && '|' !in c
    ensures Fields(a + "|" + b + "|" + c) == [a, b, c]
  {
    var line := a + ['|'] + b + ['|'] + c;
    assert a + "|" + b + "|" + c == line;
    SplitTriple(a, b, c, '|');
    StripTrimmed(a);
    StripTrimmed(b);
    StripTrimmed(c);
    var f := Fields(line);
    assert |f| == 3 && f[0] == a && f[1] == b && f[2] == c;
  }

  /** The lines of a trimmed two-line text. */
  lemma LinesOfTwo(x: string, y: string)
    requires '\n' !in x && '\n' !in y && IsTrimmed(x + "\n" + y)
    ensures Lines(x + "\n" + y) == [x, y]
  {
    assert x + "\n" + y == x + ['\n'] + y;
    StripTrimmed(x + "\n" + y);
    SplitPair(x, y, '\n');
  }

  /** The lines of a trimmed three-line text. */
  lemma LinesOfThree(x: string, y: string, z: string)
    requires '\n' !in x && '\n' !in y && '\n' !in z && IsTrimmed(x + "\n" + y + "\n" + z)
    ensures Lines(x + "\n" + y + "\n" + z) == [x, y, z]
  {
    assert x + "\n" + y + "\n" + z == x + ['\n'] + y + ['\n'] + z;
    StripTrimmed(x + "\n" + y + "\n" + z);
    SplitTriple(x, y, z, '\n');
  }

  /** Lines shorter than "customize" are kept exactly when they hold a `|`. */
  lemma KeepShortLine(line: string)
    requires |line| < 9
    ensures KeepLine(line) <==> '|' in line
  {
  }

  lemma {:induction false} KeptAll(lines: seq<string>)
    requires forall k :: 0 <= k < |lines| ==> KeepLine(lines[k])
    ensures Kept(lines) == lines
    decreases |lines|
  {
    if lines != [] {
      var init := lines[..|lines| - 1];
      assert forall k :: 0 <= k < |init| ==> init[k] == lines[k];
      KeptAll(init);
      var last := lines[|lines| - 1];
      assert KeepLine(last);
      assert Kept(lines) == init + [last];
      assert init + [last] == lines;
    }
  }

  lemma KeptDropFirst(lines: seq<string>)
    requires |lines| == 2 && !KeepLine(lines[0]) && KeepLine(lines[1])
    ensures Kept(lines) == [lines[1]]
  {
    var first := lines[..1];
    assert first[..0] == [] && first[0] == lines[0];
    assert Kept(first) == Kept(first[..0]) + [];
    assert lines[..|lines| - 1] == first;
  }

  lemma RowsOfOne(lines: seq<string>, r0: seq<string>)
    requires |lines| == 1 && Fields(lines[0]) == r0
    ensures RowsOf(lines) == [r0]
  {
  }

  lemma RowsOfTwo(lines: seq<string>, r0: seq<string>, r1: seq<string>)
    requires |lines| == 2 && Fields(lines[0]) == r0 && Fields(lines[1]) == r1
    ensures RowsOf(lines) == [r0, r1]
  {
  }

  lemma ParseOf(text: string, lines: seq<string>, kept: seq<string>, headers: seq<string>, rows: seq<seq<string>>)
    requires Lines(text) == lines && Kept(lines) == kept && |kept| > 0
    requires Fields(kept[0]) == headers && RowsOf(kept[1..]) == rows
    ensures ParseTable(text) == Extracted(Table(headers, rows))
  {
  }

  lemma FieldsAB()
    ensures Fields("A | B") == ["A", "B"]
  {
    assert "A" + " | " + "B" == "A | B";
    FieldsOfSpacedPair("A", "B");
  }

  lemma ExampleLines()
    ensures Lines("A | B\n1 | 2\n3 | 4") == ["A | B", "1 | 2", "3 | 4"]
  {
    assert "A | B" + "\n" + "1 | 2" + "\n" + "3 | 4" == "A | B\n1 | 2\n3 | 4";
    LinesOfThree("A | B", "1 | 2", "3 | 4");
  }

  lemma ExampleKept()
    ensures Kept(["A | B", "1 | 2", "3 | 4"]) == ["A | B", "1 | 2", "3 | 4"]
  {
    var lines := ["A | B", "1 | 2", "3 | 4"];
    KeepShortLine(lines[0]);
    KeepShortLine(lines[1]);
    KeepShortLine(lines[2]);
    KeptAll(lines);
  }

  lemma ExampleRows()
    ensures RowsOf(["1 | 2", "3 | 4"]) == [["1", "2"], ["3", "4"]]
  {
    assert "1" + " | " + "2" == "1 | 2";
    FieldsOfSpacedPair("1", "2");
    assert "3" + " | " + "4" == "3 | 4";
    FieldsOfSpacedPair("3", "4");
    RowsOfTwo(["1 | 2", "3 | 4"], ["1", "2"], ["3", "4"]);
  }

  /** The example table: `"A | B\n1 | 2\n3 | 4"` has headers `A`, `B` and rows `1, 2` and `3, 4`. */
  lemma ExampleTable()
    ensures ParseTable("A | B\n1 | 2\n3 | 4") == Extracted(Table(["A", "B"], [["1", "2"], ["3", "4"]]))
  {
    var lines := ["A | B", "1 | 2", "3 | 4"];
    ExampleLines();
    ExampleKept();
    FieldsAB();
    ExampleRows();
    assert lines[1..] == ["1 | 2", "3 | 4"];
    ParseOf("A | B\n1 | 2\n3 | 4", lines, lines, ["A", "B"], [["1", "2"], ["3", "4"]]);
  }

  lemma RaggedLines()
    ensures Lines("a|b\n1|2|3") == ["a|b", "1|2|3"]
  {
    assert "a|b" + "\n" + "1|2|3" == "a|b\n1|2|3";
    LinesOfTwo("a|b", "1|2|3");
  }

  lemma RaggedHeaders()
    ensures Fields("a|b") == ["a", "b"]
  {
    assert "a" + "|" + "b" == "a|b";
    FieldsOfBarePair("a", "b");
  }

  lemma RaggedRow()
    ensures Fields("1|2|3") == ["1", "2", "3"]
  {
    assert "1" + "|" + "2" + "|" + "3" == "1|2|3";
    FieldsOfBareTriple("1", "2", "3");
  }

  lemma RaggedKept()
    ensures Kept(["a|b", "1|2|3"]) == ["a|b", "1|2|3"]
  {
    var lines := ["a|b", "1|2|3"];
    KeepShortLine(lines[0]);
    KeepShortLine(lines[1]);
    KeptAll(lines);
  }

  lemma RaggedRows()
    ensures RowsOf(["1|2|3"]) == [["1", "2", "3"]]
  {
    RaggedRow();
    RowsOfOne(["1|2|3"], ["1", "2", "3"]);
  }

  /** Rows are not checked against the headers: `"a|b\n1|2|3"` gives two headers and a
      row of three cells. */
  lemma RaggedRowsPassThrough()
    ensures ParseTable("a|b\n1|2|3") == Extracted(Table(["a", "b"], [["1", "2", "3"]]))
  {
    var lines := ["a|b", "1|2|3"];
    RaggedLines();
    RaggedKept();
    RaggedHeaders();
    RaggedRows();
    assert lines[1..] == ["1|2|3"];
    ParseOf("a|b\n1|2|3", lines, lines, ["a", "b"], [["1", "2", "3"]]);
  }

  lemma InstructionLines()
    ensures Lines("Customize | it\nA | B") == ["Customize | it", "A | B"]
  {
    assert "Customize | it" + "\n" + "A | B" == "Customize | it\nA | B";
    LinesOfTwo("Customize | it", "A | B");
  }

  lemma InstructionDropped()
    ensures !KeepLine("Customize | it")
  {
    LowerOf("Customize | it", "customize | it");
    ContainsAt("customize | it", "customize", 0);
  }

  lemma InstructionKept()
    ensures Kept(["Customize | it", "A | B"]) == ["A | B"]
  {
    var lines := ["Customize | it", "A | B"];
    InstructionDropped();
    KeepShortLine(lines[1]);
    KeptDropFirst(lines);
  }

  lemma InstructionParts()
    ensures Lines("Customize | it\nA | B") == ["Customize | it", "A | B"]
    ensures Kept(["Customize | it", "A | B"]) == ["A | B"]
    ensures Fields("A | B") == ["A", "B"]
    ensures RowsOf(["A | B"][1..]) == []
  {
    assert ["A | B"][1..] == [];
    InstructionLines();
    InstructionKept();
    FieldsAB();
  }

  /** A `|` line that says "Customize" is not read as the header line. */
  lemma InstructionLineSkipped()
    ensures ParseTable("Customize | it\nA | B") == Extracted(Table(["A", "B"], []))
  {
    InstructionParts();
    ParseOf("Customize | it\nA | B", ["Customize | it", "A | B"], ["A | B"], ["A", "B"], []);
  }
}

/** Concrete files and matrices: a two-by-two example file, and lines the parser accepts
    although they do not end as `rows=<int>` or `(<row>,<col>,<value>)` does. */
module Scenarios {
  import opened Failures
  import opened Entries
  import opened TextFormat
  import opened Dense
  import opened Grammar

  const SampleLines: seq<string> := ["rows=2", "cols=2", "(0,0,5)", "(1,1,-3)"]
  const SampleEntries: seq<Element> := [Element(0, 0, 5), Element(1, 1, -3)]

  /** The example file parses to a 2 x 2 matrix holding its two triples in file order. */
  lemma SampleParses()
    ensures ParseText(Some(SampleLines)) == Success(Parsed(2, 2, SampleEntries))
  {
    var p := Parsed(2, 2, SampleEntries);
    assert IntText(2) == "2" && IntText(0) == "0" && IntText(1) == "1" && IntText(5) == "5";
    assert IntText(-3) == "-3";
    assert EntryLine(SampleEntries[0]) == "(0,0,5)";
    assert EntryLine(SampleEntries[1]) == "(1,1,-3)";
    var lines := Serialize(p);
    assert "rows=" + IntText(2) == "rows=2" && "cols=" + IntText(2) == "cols=2";
    assert |lines| == 4 && lines[0] == "rows=2" && lines[1] == "cols=2";
    assert lines[2] == "(0,0,5)" && lines[3] == "(1,1,-3)";
    assert lines == SampleLines;
    ParseSerialize(p);
  }

  /** Its grid of values is [[5, 0], [0, -3]]. */
  lemma SampleGrid()
    ensures Grid(SampleEntries, 2, 2) == [[5, 0], [0, -3]]
  {
    var g := Grid(SampleEntries, 2, 2);
    assert Get(SampleEntries, 0, 0) == 5 && Get(SampleEntries, 0, 1) == 0;
    assert Get(SampleEntries, 1, 0) == 0 && Get(SampleEntries, 1, 1) == -3;
    assert Extent(2) == 2;
    assert g[0] == [5, 0];
    assert g[1] == [0, -3];
  }

  /** A first line `rows:2` is a format error. */
  lemma ColonHeaderRejected()
    ensures ParseText(Some(["rows:2", "cols=2"])) == Failure(WrongFormat)
  {
    var first := "rows:2";
    assert first[4] != "rows="[4];
    RowsKeyRequired(["rows:2", "cols=2"]);
  }

  /** Text after the number on a header line is ignored: `rows=2 x` reads as 2 rows. */
  lemma HeaderTrailingTextIgnored()
    ensures ScanHeader("rows=", "rows=2 x") == Some(2)
  {
    assert IntText(2) == "2";
    ScanHeaderText("rows=", 2, " x");
    assert "rows=" + (IntText(2) + " x") == "rows=2 x";
  }

  /** The text of the triple (1, 2, 3) before `tail`. */
  lemma OneTwoThreeText(tail: string)
    ensures EntryText(Element(1, 2, 3), tail) == "(1,2,3" + tail
  {
    assert IntText(1) == "1" && IntText(2) == "2" && IntText(3) == "3";
  }

  /** Whatever follows the third number of an entry line is ignored, provided it does not
      continue that number's digits. */
  lemma EntryTailIgnored(tail: string)
    requires Delimits(tail) && NoSpaces(tail)
    ensures ScanLine("(1,2,3" + tail) == Some(Element(1, 2, 3))
  {
    OneTwoThreeText(tail);
    ScanEntryText(Element(1, 2, 3), tail);
    NoSpacesConcat("(1,2,3", tail);
    StripNoSpaces("(1,2,3" + tail);
  }

  /** So the closing parenthesis is never examined: `(1,2,3` and `(1,2,3]` both give the
      triple (1, 2, 3). */
  lemma UnclosedEntryAccepted()
    ensures ScanLine("(1,2,3") == Some(Element(1, 2, 3))
    ensures ScanLine("(1,2,3]") == Some(Element(1, 2, 3))
  {
    EntryTailIgnored("");
    assert "(1,2,3" + "" == "(1,2,3";
    EntryTailIgnored("]");
    assert "(1,2,3" + "]" == "(1,2,3]";
  }

  /** Removing whitespace from `(1,2, 3)` leaves `(1,2,3)`. */
  lemma InnerSpaceStripped()
    ensures StripSpaces("(1,2, 3)") == "(1,2,3)"
  {
    assert "(1,2, 3)" == "(1,2," + (" " + "3)");
    StripSpacesConcat("(1,2,", " " + "3)");
    StripSpacesConcat(" ", "3)");
    StripSpacesChar(' ');
    StripNoSpaces("(1,2,");
    StripNoSpaces("3)");
    assert "(1,2," + "3)" == "(1,2,3)";
  }

  /** Whitespace inside an entry line is removed before it is scanned: `(1,2, 3)` gives the
      triple (1, 2, 3). */
  lemma InnerSpaceRemoved()
    ensures ScanLine("(1,2, 3)") == Some(Element(1, 2, 3))
  {
    InnerSpaceStripped();
    OneTwoThreeText(")");
    assert "(1,2,3" + ")" == "(1,2,3)";
    ScanEntryText(Element(1, 2, 3), ")");
  }

  /** Digits are read most significant first: `rows=12` gives 12 rows. */
  lemma MultiDigitHeader()
    ensures ScanHeader("rows=", "rows=12") == Some(12)
  {
    assert NatText(12) == NatText(1) + [DigitChar(2)];
    assert IntText(12) == "12";
    ScanHeaderText("rows=", 12, "");
    assert "rows=" + (IntText(12) + "") == "rows=12";
  }
}

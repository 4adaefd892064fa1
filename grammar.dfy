/** What the scanner accepts, described as text rather than as a scan: a `%d` field is optional
    whitespace, an optional sign and at least one digit, and it ends where the digits end.
    Each scanner of TextFormat is proved to succeed exactly on the text this grammar describes,
    so that an accepted header line starts with its key and a number, and an accepted entry
    line (whitespace removed) starts with `(`, a number, `,`, a number, `,`, a number. */
module Grammar {
  import opened Failures
  import opened Entries
  import opened TextFormat

  // ---- The grammar ----

  /** One or more decimal digits. */
  predicate IsDigits(d: string) {
    |d| > 0 && forall k :: 0 <= k < |d| ==> IsDigit(d[k])
  }

  /** `t` is whitespace, then an optional `-` or `+`, then digits, and n is their signed value. */
  predicate IsNumeral(t: string, n: int) {
    if t != [] && IsSpace(t[0]) then IsNumeral(t[1..], n)
    else if t != [] && t[0] == '-' then IsDigits(t[1..]) && n == -(DigitsValue(t[1..]) as int)
    else if t != [] && t[0] == '+' then IsDigits(t[1..]) && n == DigitsValue(t[1..])
    else IsDigits(t) && n == DigitsValue(t)
  }

  /** `s` is a numeral of n followed by `rest`, which does not continue its digits. */
  predicate Reads(s: string, n: int, rest: string) {
    |rest| < |s| && s[|s| - |rest|..] == rest && IsNumeral(s[..|s| - |rest|], n) && Delimits(rest)
  }

  /** `s` is digits of value m followed by `rest`, which does not continue them. */
  predicate DigitsThen(u: string, m: int, rest: string) {
    |rest| < |u| && u[|u| - |rest|..] == rest && IsDigits(u[..|u| - |rest|])
    && m == DigitsValue(u[..|u| - |rest|]) && Delimits(rest)
  }

  // ---- %d ----

  lemma {:induction false} DigitRunStops(u: string)
    ensures DigitRun(u) < |u| ==> !IsDigit(u[DigitRun(u)])
  {
    if u != [] && IsDigit(u[0]) {
      DigitRunStops(u[1..]);
    }
  }

  /** The unsigned conversion succeeds with (m, rest) exactly when `u` is digits of value m,
      then `rest`. */
  lemma ScanDigitsMeans(u: string, m: int, rest: string)
    ensures ScanDigits(u) == Some(Scanned(m, rest)) <==> DigitsThen(u, m, rest)
  {
    var n := DigitRun(u);
    DigitRunStops(u);
    if DigitsThen(u, m, rest) {
      var t := u[..|u| - |rest|];
      assert u == t + rest;
      DigitRunOf(t, rest);
    }
  }

  /** Without leading whitespace: an optional sign, then digits. */
  lemma ScanSignedMeans(s: string, n: int, rest: string)
    requires s == [] || !IsSpace(s[0])
    ensures ScanSigned(s) == Some(Scanned(n, rest)) <==> Reads(s, n, rest)
  {
    if s != [] && (s[0] == '-' || s[0] == '+') {
      var m := if s[0] == '-' then -n else n;
      ScanDigitsMeans(s[1..], m, rest);
      if |rest| < |s| {
        var t := s[..|s| - |rest|];
        assert t[1..] == s[1..][..|s[1..]| - |rest|];
        assert s[|s| - |rest|..] == s[1..][|s[1..]| - |rest|..];
      }
    } else {
      ScanDigitsMeans(s, n, rest);
    }
  }

  /** `%d` skips a leading whitespace character. */
  lemma ScanIntSkipsSpace(s: string)
    requires s != [] && IsSpace(s[0])
    ensures ScanInt(s) == ScanInt(s[1..])
  {
    assert s[SpaceRun(s)..] == s[1..][SpaceRun(s[1..])..];
  }

  /** So does the grammar. */
  lemma ReadsSkipsSpace(s: string, n: int, rest: string)
    requires s != [] && IsSpace(s[0])
    ensures Reads(s, n, rest) <==> Reads(s[1..], n, rest)
  {
    if |rest| < |s| {
      var t := s[..|s| - |rest|];
      assert t[1..] == s[1..][..|s[1..]| - |rest|];
      assert s[|s| - |rest|..] == s[1..][|s[1..]| - |rest|..];
      assert IsNumeral(t, n) == IsNumeral(t[1..], n);
    }
  }

  /** `%d` converts n and leaves `rest` exactly when the input is a numeral of n, then `rest`. */
  lemma {:induction false} ScanIntMeans(s: string, n: int, rest: string)
    ensures ScanInt(s) == Some(Scanned(n, rest)) <==> Reads(s, n, rest)
    decreases |s|
  {
    if s != [] && IsSpace(s[0]) {
      ScanIntSkipsSpace(s);
      ReadsSkipsSpace(s, n, rest);
      ScanIntMeans(s[1..], n, rest);
    } else {
      assert s[SpaceRun(s)..] == s;
      ScanSignedMeans(s, n, rest);
    }
  }

  // ---- sscanf ----

  /** The ordinary characters of a format match exactly when the input starts with them. */
  lemma {:induction false} SscanfKey(key: string, s: string, format: seq<Directive>)
    ensures Sscanf(s, Literals(key) + format) == if key <= s then Sscanf(s[|key|..], format) else []
  {
    if key == [] {
      assert Literals(key) + format == format;
      assert s[|key|..] == s;
    } else {
      var f := Literals(key) + format;
      assert f[0] == Literal(key[0]);
      assert f[1..] == Literals(key[1..]) + format;
      if s != [] && s[0] == key[0] {
        SscanfKey(key[1..], s[1..], format);
        assert key <= s <==> key[1..] <= s[1..];
        assert key <= s ==> s[1..][|key[1..]|..] == s[|key|..];
      }
    }
  }

  lemma SscanfLiteralStep(ch: char, s: string, format: seq<Directive>)
    ensures Sscanf(s, [Literal(ch)] + format)
         == if s != [] && s[0] == ch then Sscanf(s[1..], format) else []
  {
    assert ([Literal(ch)] + format)[1..] == format;
  }

  lemma SscanfDecimalStep(s: string, format: seq<Directive>)
    ensures Sscanf(s, [Decimal] + format)
         == match ScanInt(s) case None => [] case Some(m) => [m.value] + Sscanf(m.rest, format)
  {
    assert ([Decimal] + format)[1..] == format;
  }

  // ---- Header lines ----

  /** `sscanf(line, "<key>%d") == 1` holds of a line made of the key, then a numeral of n,
      then anything that does not continue its digits, and the value read is n. */
  lemma NumeralHeaderScans(key: string, line: string, n: int, rest: string)
    requires key <= line && Reads(line[|key|..], n, rest)
    ensures ScanHeader(key, line) == Some(n)
  {
    SscanfKey(key, line, [Decimal]);
    SscanfDecimalStep(line[|key|..], []);
    ScanIntMeans(line[|key|..], n, rest);
  }

  /** ... and of no other line: an accepted header line starts with its key, then a numeral
      of the value read. */
  lemma AcceptedHeader(key: string, line: string) returns (rest: string)
    requires ScanHeader(key, line).Some?
    ensures key <= line && Reads(line[|key|..], ScanHeader(key, line).value, rest)
  {
    SscanfKey(key, line, [Decimal]);
    var s := line[|key|..];
    SscanfDecimalStep(s, []);
    rest := ScanInt(s).value.rest;
    ScanIntMeans(s, ScanInt(s).value.value, rest);
  }

  /** A header line that does not start with its key is rejected. */
  lemma HeaderNeedsKey(key: string, line: string)
    requires !(key <= line)
    ensures ScanHeader(key, line) == None
  {
    SscanfKey(key, line, [Decimal]);
  }

  // ---- Entry lines ----

  /** `line` is `(`, a numeral of the row, then r1; r1 is `,`, a numeral of the column, then
      r2; r2 is `,`, a numeral of the value, then r3. Nothing is required of r3 beyond not
      continuing the value's digits: the closing parenthesis is never examined. */
  predicate EntryShape(line: string, e: Element, r1: string, r2: string, r3: string) {
    && line != [] && line[0] == '(' && Reads(line[1..], e.row, r1)
    && r1 != [] && r1[0] == ',' && Reads(r1[1..], e.col, r2)
    && r2 != [] && r2[0] == ',' && Reads(r2[1..], e.value, r3)
  }

  /** `"(%d,%d,%d)"` as three fields, each a punctuation character and a conversion. */
  lemma EntryFormatFields()
    ensures EntryFormat == [Literal('(')] + ([Decimal] + AfterRow)
    ensures AfterRow == [Literal(',')] + ([Decimal] + AfterCol)
    ensures AfterCol == [Literal(',')] + ([Decimal] + AfterValue)
  {
  }

  /** One field: the punctuation character `ch`, then a conversion of n leaving `rest`. */
  lemma FieldScans(ch: char, s: string, n: int, rest: string, format: seq<Directive>)
    requires s != [] && s[0] == ch && Reads(s[1..], n, rest)
    ensures Sscanf(s, [Literal(ch)] + ([Decimal] + format)) == [n] + Sscanf(rest, format)
  {
    SscanfLiteralStep(ch, s, [Decimal] + format);
    SscanfDecimalStep(s[1..], format);
    ScanIntMeans(s[1..], n, rest);
  }

  /** A field that converts something: its punctuation is there and a numeral follows it. */
  lemma FieldScanned(ch: char, s: string, format: seq<Directive>) returns (n: int, rest: string)
    requires |Sscanf(s, [Literal(ch)] + ([Decimal] + format))| > 0
    ensures s != [] && s[0] == ch && Reads(s[1..], n, rest)
    ensures Sscanf(s, [Literal(ch)] + ([Decimal] + format)) == [n] + Sscanf(rest, format)
  {
    SscanfLiteralStep(ch, s, [Decimal] + format);
    SscanfDecimalStep(s[1..], format);
    n, rest := ScanInt(s[1..]).value.value, ScanInt(s[1..]).value.rest;
    ScanIntMeans(s[1..], n, rest);
  }

  /** `")"` converts nothing. */
  lemma AfterValueEmpty(s: string)
    ensures Sscanf(s, AfterValue) == []
  {
    SscanfLiteralStep(')', s, []);
  }

  /** `sscanf(line, "(%d,%d,%d)") == 3` holds of every line of that shape, with its triple. */
  lemma EntryShapeScans(line: string, e: Element, r1: string, r2: string, r3: string)
    requires EntryShape(line, e, r1, r2, r3)
    ensures ScanEntry(line) == Some(e)
  {
    EntryFormatFields();
    FieldScans('(', line, e.row, r1, AfterRow);
    FieldScans(',', r1, e.col, r2, AfterCol);
    FieldScans(',', r2, e.value, r3, AfterValue);
    AfterValueEmpty(r3);
    assert Sscanf(line, EntryFormat) == [e.row, e.col, e.value];
  }

  /** ... and of no other line: an accepted line has that shape. */
  lemma AcceptedEntry(line: string) returns (r1: string, r2: string, r3: string)
    requires ScanEntry(line).Some?
    ensures EntryShape(line, ScanEntry(line).value, r1, r2, r3)
  {
    EntryFormatFields();
    var vs := Sscanf(line, EntryFormat);
    var row, col, value;
    row, r1 := FieldScanned('(', line, AfterRow);
    assert |Sscanf(r1, AfterRow)| == 2;
    col, r2 := FieldScanned(',', r1, AfterCol);
    assert |Sscanf(r2, AfterCol)| == 1;
    value, r3 := FieldScanned(',', r2, AfterValue);
    AfterValueEmpty(r3);
    assert vs == [row, col, value];
  }

  // ---- Whole files ----

  /** The file constructor accepts exactly the files with a `rows=` header line, a `cols=`
      header line and only entry lines after them. */
  lemma ParseTextAccepts(lines: seq<string>)
    ensures ParseText(Some(lines)).Success?
        <==> && |lines| >= 2
             && ScanHeader("rows=", lines[0]).Some? && ScanHeader("cols=", lines[1]).Some?
             && forall k :: 2 <= k < |lines| ==> ScanLine(lines[k]).Some?
  {
    if |lines| >= 2 {
      assert forall k :: 2 <= k < |lines| ==> lines[2..][k - 2] == lines[k];
    }
  }

  /** A first line that does not start with `rows=` is a format error. */
  lemma RowsKeyRequired(lines: seq<string>)
    requires lines != [] && !("rows=" <= lines[0])
    ensures ParseText(Some(lines)) == Failure(WrongFormat)
  {
    HeaderNeedsKey("rows=", lines[0]);
  }

  /** A second line that does not start with `cols=` is a format error. */
  lemma ColsKeyRequired(lines: seq<string>)
    requires |lines| >= 2 && !("cols=" <= lines[1])
    ensures ParseText(Some(lines)) == Failure(WrongFormat)
  {
    HeaderNeedsKey("cols=", lines[1]);
  }

  /** An entry line that, whitespace removed, does not start with `(` is a format error. */
  lemma EntryParenRequired(lines: seq<string>, k: int)
    requires 2 <= k < |lines|
    requires var t := StripSpaces(lines[k]); t == [] || t[0] != '('
    ensures ParseText(Some(lines)) == Failure(WrongFormat)
  {
    EntryFormatFields();
    SscanfLiteralStep('(', StripSpaces(lines[k]), [Decimal] + AfterRow);
    ParseTextAccepts(lines);
  }
}

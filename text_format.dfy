/** The text format read by the file constructor: a `rows=<int>` line, a `cols=<int>` line,
    then one `(<row>,<col>,<value>)` line per stored triple. Lines are matched with `sscanf`,
    whose result is only the number of conversions that succeeded. */
module TextFormat {
  import opened Failures
  import opened Entries

  // ---- Characters ----

  /** The characters `isspace` accepts in the "C" locale. */
  predicate IsSpace(ch: char) {
    ch == ' ' || ch == '\t' || ch == '\n' || ch == '\U{0B}' || ch == '\U{0C}' || ch == '\r'
  }

  predicate IsDigit(ch: char) {
    '0' <= ch <= '9'
  }

  /** `line.erase(remove_if(line.begin(), line.end(), isspace), line.end())`. */
  function StripSpaces(s: string): (t: string)
    ensures |t| <= |s|
    ensures forall k :: 0 <= k < |t| ==> !IsSpace(t[k])
  {
    if s == [] then []
    else if IsSpace(s[0]) then StripSpaces(s[1..])
    else [s[0]] + StripSpaces(s[1..])
  }

  /** The number of leading whitespace characters. */
  function SpaceRun(s: string): (n: nat)
    ensures n <= |s|
  {
    if s != [] && IsSpace(s[0]) then 1 + SpaceRun(s[1..]) else 0
  }

  /** The number of leading decimal digits. */
  function DigitRun(s: string): (n: nat)
    ensures n <= |s|
    ensures forall k :: 0 <= k < n ==> IsDigit(s[k])
  {
    if s != [] && IsDigit(s[0]) then 1 + DigitRun(s[1..]) else 0
  }

  /** The value of a string of decimal digits. */
  function DigitsValue(ds: string): nat
    requires forall k :: 0 <= k < |ds| ==> IsDigit(ds[k])
  {
    if ds == [] then 0
    else
      var digit := ds[|ds| - 1] as int - '0' as int;
      assert IsDigit(ds[|ds| - 1]);
      DigitsValue(ds[..|ds| - 1]) * 10 + digit
  }

  // ---- sscanf ----

  /** A converted integer and the input left after it. */
  datatype Scanned = Scanned(value: int, rest: string)

  /** One `%d` conversion: leading whitespace is skipped, then a signed decimal is read. */
  function ScanInt(s: string): (r: Option<Scanned>)
    ensures r.Some? ==> |r.value.rest| < |s|
  {
    ScanSigned(s[SpaceRun(s)..])
  }

  /** An optional `+` or `-`, then at least one digit. */
  function ScanSigned(t: string): (r: Option<Scanned>)
    ensures r.Some? ==> |r.value.rest| < |t|
  {
    if t != [] && (t[0] == '-' || t[0] == '+') then
      match ScanDigits(t[1..])
      case None => None
      case Some(m) => Some(Scanned(if t[0] == '-' then -m.value else m.value, m.rest))
    else ScanDigits(t)
  }

  /** As many digits as follow, at least one. */
  function ScanDigits(u: string): (r: Option<Scanned>)
    ensures r.Some? ==> r.value.value >= 0 && |r.value.rest| < |u|
  {
    var n := DigitRun(u);
    if n == 0 then None else Some(Scanned(DigitsValue(u[..n]), u[n..]))
  }

  /** The directives of the formats used here: an ordinary character, or `%d`. */
  datatype Directive = Literal(ch: char) | Decimal

  /** The values `sscanf(input, format, ...)` converts before the first mismatch; the call
      returns how many there are (or EOF, which is never the count the caller wants). */
  function Sscanf(input: string, format: seq<Directive>): (vs: seq<int>)
    ensures |vs| <= |format|
  {
    if format == [] then []
    else
      match format[0]
      case Literal(ch) =>
        if input != [] && input[0] == ch then Sscanf(input[1..], format[1..]) else []
      case Decimal =>
        match ScanInt(input)
        case None => []
        case Some(n) => [n.value] + Sscanf(n.rest, format[1..])
  }

  /** The ordinary characters of `key`, each matched literally. */
  function Literals(key: string): (f: seq<Directive>)
    ensures |f| == |key|
  {
    if key == [] then [] else [Literal(key[0])] + Literals(key[1..])
  }

  /** `"(%d,%d,%d)"`, built from its tail: `")"`, `",%d)"`, `",%d,%d)"`. */
  const AfterValue: seq<Directive> := [Literal(')')]
  const AfterCol: seq<Directive> := [Literal(','), Decimal] + AfterValue
  const AfterRow: seq<Directive> := [Literal(','), Decimal] + AfterCol
  const EntryFormat: seq<Directive> := [Literal('('), Decimal] + AfterRow

  /** `sscanf(line, "rows=%d", ...) == 1` for key "rows=" ("cols=" alike). */
  function ScanHeader(key: string, line: string): Option<int>
  {
    var vs := Sscanf(line, Literals(key) + [Decimal]);
    if |vs| == 1 then Some(vs[0]) else None
  }

  /** `sscanf(line, "(%d,%d,%d)", ...) == 3`. */
  function ScanEntry(line: string): Option<Element>
  {
    var vs := Sscanf(line, EntryFormat);
    if |vs| == 3 then Some(Element(vs[0], vs[1], vs[2])) else None
  }

  /** One entry line: whitespace removed, then scanned. */
  function ScanLine(line: string): Option<Element> {
    ScanEntry(StripSpaces(line))
  }

  // ---- The file constructor ----

  /** The triples of the entry lines, in file order, or None when a line does not scan. */
  function ParseEntries(lines: seq<string>): (r: Option<seq<Element>>)
    ensures r.Some? <==> forall k :: 0 <= k < |lines| ==> ScanLine(lines[k]).Some?
    ensures r.Some? ==> |r.value| == |lines|
    ensures r.Some? ==> forall k :: 0 <= k < |lines| ==> r.value[k] == ScanLine(lines[k]).value
  {
    if lines == [] then Some([])
    else
      var n := |lines| - 1;
      assert forall k :: 0 <= k < n ==> lines[..n][k] == lines[k];
      match ParseEntries(lines[..n])
      case None => None
      case Some(es) =>
        match ScanLine(lines[n])
        case None => None
        case Some(e) => Some(es + [e])
  }

  /** What a successful parse yields: the two header integers and the triples. */
  datatype Parsed = Parsed(rows: int, cols: int, entries: seq<Element>)

  /** The file constructor on the lines `getline` returns; None when the file cannot be opened. */
  function ParseText(src: Option<seq<string>>): (r: Result<Parsed, Error>)
    ensures src.None? <==> r == Failure(UnableToOpen)
    ensures r.Failure? ==> r.error == UnableToOpen || r.error == WrongFormat
    ensures r.Success? ==> |src.value| >= 2 && |r.value.entries| == |src.value| - 2
    ensures r.Success? ==> ScanHeader("rows=", src.value[0]) == Some(r.value.rows)
    ensures r.Success? ==> ScanHeader("cols=", src.value[1]) == Some(r.value.cols)
    ensures r.Success? ==>
              forall k :: 2 <= k < |src.value| ==> ScanLine(src.value[k]) == Some(r.value.entries[k - 2])
  {
    match src
    case None => Failure(UnableToOpen)
    case Some(lines) =>
      if |lines| < 1 then Failure(WrongFormat)
      else match ScanHeader("rows=", lines[0])
      case None => Failure(WrongFormat)
      case Some(rows) =>
        if |lines| < 2 then Failure(WrongFormat)
        else match ScanHeader("cols=", lines[1])
        case None => Failure(WrongFormat)
        case Some(cols) =>
          assert forall k :: 2 <= k < |lines| ==> lines[2..][k - 2] == lines[k];
          match ParseEntries(lines[2..])
          case None => Failure(WrongFormat)
          case Some(es) => Success(Parsed(rows, cols, es))
  }

  // ---- Writing the format, and reading it back ----

  function DigitChar(d: nat): char
    requires d < 10
  {
    ('0' as int + d) as char
  }

  /** The decimal digits of n, most significant first. */
  function NatText(n: nat): (t: string)
    ensures |t| > 0 && forall k :: 0 <= k < |t| ==> IsDigit(t[k])
  {
    if n < 10 then [DigitChar(n)] else NatText(n / 10) + [DigitChar(n % 10)]
  }

  /** n as `%d` prints it. */
  function IntText(n: int): string {
    if n < 0 then "-" + NatText(-n) else NatText(n)
  }

  /** `(<row>,<col>,<value>` followed by `tail`. */
  function EntryText(e: Element, tail: string): string {
    "(" + (IntText(e.row) + ("," + (IntText(e.col) + ("," + (IntText(e.value) + tail)))))
  }

  /** `(<row>,<col>,<value>)` */
  function EntryLine(e: Element): string {
    EntryText(e, ")")
  }

  /** A file holding `p`: the two header lines, then one entry line per triple. */
  function Serialize(p: Parsed): seq<string> {
    ["rows=" + IntText(p.rows), "cols=" + IntText(p.cols)]
      + seq(|p.entries|, k requires 0 <= k < |p.entries| => EntryLine(p.entries[k]))
  }

  /** `rest` cannot extend a number written before it. */
  predicate Delimits(rest: string) {
    rest == [] || !IsDigit(rest[0])
  }

  lemma {:induction false} NatTextValue(n: nat)
    ensures DigitsValue(NatText(n)) == n
  {
    if n >= 10 {
      var t := NatText(n / 10);
      NatTextValue(n / 10);
      assert (t + [DigitChar(n % 10)])[..|t|] == t;
    }
  }

  lemma {:induction false} DigitRunOf(ds: string, rest: string)
    requires forall k :: 0 <= k < |ds| ==> IsDigit(ds[k])
    requires Delimits(rest)
    ensures DigitRun(ds + rest) == |ds|
  {
    if ds != [] {
      assert (ds + rest)[1..] == ds[1..] + rest;
      DigitRunOf(ds[1..], rest);
    } else {
      assert ds + rest == rest;
    }
  }

  lemma ScanDigitsText(n: nat, rest: string)
    requires Delimits(rest)
    ensures ScanDigits(NatText(n) + rest) == Some(Scanned(n, rest))
  {
    var t := NatText(n);
    DigitRunOf(t, rest);
    assert (t + rest)[..|t|] == t;
    assert (t + rest)[|t|..] == rest;
    NatTextValue(n);
  }

  lemma ScanMinus(u: string)
    ensures ScanSigned(['-'] + u)
         == match ScanDigits(u) case None => None case Some(m) => Some(Scanned(-m.value, m.rest))
  {
    assert (['-'] + u)[1..] == u;
  }

  /** `%d` reads back exactly the integer `IntText` wrote, and stops right after it. */
  lemma ScanIntText(n: int, rest: string)
    requires Delimits(rest)
    ensures ScanInt(IntText(n) + rest) == Some(Scanned(n, rest))
  {
    var magnitude := if n < 0 then -n else n;
    var u := NatText(magnitude) + rest;
    var s := IntText(n) + rest;
    ScanDigitsText(magnitude, rest);
    if n < 0 {
      assert s == ['-'] + u;
      ScanMinus(u);
    } else {
      assert s == u;
      assert IsDigit(u[0]);
    }
    assert SpaceRun(s) == 0;
  }

  lemma {:induction false} SscanfLiterals(key: string, s: string, format: seq<Directive>)
    ensures Sscanf(key + s, Literals(key) + format) == Sscanf(s, format)
  {
    if key != [] {
      var f := Literals(key) + format;
      assert f[0] == Literal(key[0]);
      assert (key + s)[0] == key[0];
      assert (key + s)[1..] == key[1..] + s;
      assert f[1..] == Literals(key[1..]) + format;
      SscanfLiterals(key[1..], s, format);
    } else {
      assert key + s == s;
      assert Literals(key) + format == format;
    }
  }

  lemma SscanfDecimal(n: int, rest: string, format: seq<Directive>)
    requires Delimits(rest)
    ensures Sscanf(IntText(n) + rest, [Decimal] + format) == [n] + Sscanf(rest, format)
  {
    ScanIntText(n, rest);
    assert ([Decimal] + format)[1..] == format;
  }

  /** A header line is accepted whatever follows its integer. */
  lemma ScanHeaderText(key: string, n: int, junk: string)
    requires Delimits(junk)
    ensures ScanHeader(key, key + (IntText(n) + junk)) == Some(n)
  {
    SscanfLiterals(key, IntText(n) + junk, [Decimal]);
    SscanfDecimal(n, junk, []);
    assert [Decimal] + [] == [Decimal];
  }

  lemma SscanfLiteral(ch: char, s: string, format: seq<Directive>)
    ensures Sscanf([ch] + s, [Literal(ch)] + format) == Sscanf(s, format)
  {
    assert ([ch] + s)[1..] == s;
    assert ([Literal(ch)] + format)[1..] == format;
  }

  /** A separator and a number, as the format's `,%d` reads them. */
  lemma SscanfField(sep: char, n: int, rest: string, format: seq<Directive>)
    requires Delimits(rest)
    ensures Sscanf([sep] + (IntText(n) + rest), [Literal(sep), Decimal] + format) == [n] + Sscanf(rest, format)
  {
    assert [Literal(sep), Decimal] + format == [Literal(sep)] + ([Decimal] + format);
    SscanfLiteral(sep, IntText(n) + rest, [Decimal] + format);
    SscanfDecimal(n, rest, format);
  }

  /** The third conversion completes the match: `(r,c,v` is accepted without its closing
      parenthesis, and `(r,c,v)` with anything after it. */
  lemma ScanEntryText(e: Element, tail: string)
    requires Delimits(tail)
    ensures ScanEntry(EntryText(e, tail)) == Some(e)
  {
    var afterCol := [','] + (IntText(e.value) + tail);
    var afterRow := [','] + (IntText(e.col) + afterCol);
    var line := ['('] + (IntText(e.row) + afterRow);
    assert EntryText(e, tail) == line;
    SscanfField(',', e.value, tail, AfterValue);
    SscanfField(',', e.col, afterCol, AfterCol);
    SscanfField('(', e.row, afterRow, AfterRow);
    assert |Sscanf(tail, AfterValue)| == 0;
    assert Sscanf(line, EntryFormat) == [e.row, e.col, e.value];
  }

  /** Removing whitespace works character by character: it keeps every other character, in
      order. With `StripSpacesChar` this determines `StripSpaces` on every line. */
  lemma {:induction false} StripSpacesConcat(a: string, b: string)
    ensures StripSpaces(a + b) == StripSpaces(a) + StripSpaces(b)
  {
    if a == [] {
      assert a + b == b;
    } else {
      assert (a + b)[0] == a[0];
      assert (a + b)[1..] == a[1..] + b;
      StripSpacesConcat(a[1..], b);
    }
  }

  /** A single character is removed exactly when it is whitespace. */
  lemma StripSpacesChar(ch: char)
    ensures StripSpaces([ch]) == if IsSpace(ch) then [] else [ch]
  {
    assert [ch][1..] == [];
  }

  lemma {:induction false} StripNoSpaces(s: string)
    requires NoSpaces(s)
    ensures StripSpaces(s) == s
  {
    if s != [] {
      StripNoSpaces(s[1..]);
    }
  }

  predicate NoSpaces(s: string) {
    forall k :: 0 <= k < |s| ==> !IsSpace(s[k])
  }

  lemma NoSpacesConcat(a: string, b: string)
    requires NoSpaces(a) && NoSpaces(b)
    ensures NoSpaces(a + b)
  {
    forall k | 0 <= k < |a + b| ensures !IsSpace((a + b)[k]) {
      if k < |a| {
        assert (a + b)[k] == a[k];
      } else {
        assert (a + b)[k] == b[k - |a|];
      }
    }
  }

  lemma EntryLineHasNoSpaces(e: Element)
    ensures StripSpaces(EntryLine(e)) == EntryLine(e)
  {
    var a, b, c := IntText(e.row), IntText(e.col), IntText(e.value);
    assert NoSpaces(a) && NoSpaces(b) && NoSpaces(c);
    NoSpacesConcat(c, ")");
    NoSpacesConcat(",", c + ")");
    NoSpacesConcat(b, "," + (c + ")"));
    NoSpacesConcat(",", b + ("," + (c + ")")));
    NoSpacesConcat(a, "," + (b + ("," + (c + ")"))));
    NoSpacesConcat("(", a + ("," + (b + ("," + (c + ")")))));
    StripNoSpaces(EntryLine(e));
  }

  /** Reading back a written file gives the same dimensions and the same triples in the same
      order, duplicates included. */
  lemma ParseSerialize(p: Parsed)
    ensures ParseText(Some(Serialize(p))) == Success(p)
  {
    var lines := Serialize(p);
    ScanHeaderText("rows=", p.rows, []);
    ScanHeaderText("cols=", p.cols, []);
    assert "rows=" + (IntText(p.rows) + []) == lines[0];
    assert "cols=" + (IntText(p.cols) + []) == lines[1];
    forall k | 0 <= k < |p.entries| ensures ScanLine(lines[2..][k]) == Some(p.entries[k]) {
      assert lines[2..][k] == EntryLine(p.entries[k]);
      EntryLineHasNoSpaces(p.entries[k]);
      ScanEntryText(p.entries[k], ")");
    }
    var parsed := ParseEntries(lines[2..]);
    assert parsed.Some? && parsed.value == p.entries;
  }

  lemma {:induction false} StripBlank(s: string)
    requires forall k :: 0 <= k < |s| ==> IsSpace(s[k])
    ensures StripSpaces(s) == []
  {
    if s != [] {
      StripBlank(s[1..]);
    }
  }

  /** A blank entry line is a format error; it is not skipped. */
  lemma BlankLineRejected(lines: seq<string>, k: int)
    requires 2 <= k < |lines|
    requires forall i :: 0 <= i < |lines[k]| ==> IsSpace(lines[k][i])
    ensures ParseText(Some(lines)) == Failure(WrongFormat)
  {
    StripBlank(lines[k]);
    assert ScanLine(lines[k]).None?;
  }
}

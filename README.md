# Sparse matrix in coordinate form

The repository is one C++ class, `SparseMatrix` (sparse_matrix.cpp). It stores a matrix as a
vector of (row, column, value) triples plus the two dimensions `numRows` and `numCols`. It
reads a matrix from a text file (`rows=<int>`, `cols=<int>`, then one `(<row>,<col>,<value>)`
line per triple). It reads and writes single values, adds, subtracts and multiplies two
matrices, and prints the dense grid.

This project models that class in Dafny and proves what its operations compute.

- `failures.dfy` (module `Failures`): `Option`, `Result` and the error kinds. The three
  exceptions become `UnableToOpen`, `WrongFormat` and `DimensionMismatch(operation)`.
- `entries.dfy` (module `Entries`): the triple, the meaning of a vector of triples, and
  `setElement`'s effect on it. `Get` is the first-match scan. `Updated` overwrites the first
  match or appends.
- `arithmetic.dfy` (module `Arithmetic`): what `add`, `subtract` and `multiply` leave in their
  result vector, written as folds of `Updated` over the operands' triples. Each fold has an
  independent reference definition:
  - `LastOr`: the last duplicate wins when `this` is copied in;
  - `SumAt`: every duplicate of `other` contributes;
  - `PairSum`: the sum over matching pairs of triples;
  - `DenseDot`: the textbook sum over k of a(i,k) * b(k,j).
- `text_format.dfy` (module `TextFormat`): the file constructor as a function on the lines
  `getline` returns. It includes a small interpreter of `sscanf` for the formats the class uses.
  It also has a printer for the format and the proof that parsing what it prints gives back
  the same matrix.
- `grammar.dfy` (module `Grammar`): what the parser accepts, described as text rather than as
  a scan. A `%d` field is optional whitespace, an optional sign, and at least one digit, up to
  the first non-digit. Each scanner is proved to succeed exactly on text of that form. So a
  header line is accepted exactly when it starts with its key and a number. An entry line is
  accepted exactly when, whitespace removed, it starts with `(`, a number, `,`, a number, `,`,
  a number.
- `dense.dfy` (module `Dense`): the grid of values `print` writes.
- `sparse_matrix.dfy` (module `Matrix`): the class itself. `elements` is a `seq<Element>`
  field, and the dimensions are constants because no method of the class changes them (an
  assignment of a whole object, as `main` does, replaces the object).
  Every method keeps the source's loops and is proved against the functions above.
- `scenarios.dfy` (module `Scenarios`): a 2 x 2 example file, and lines the parser accepts
  although they do not fully match the format.

The code is followed where it is more lenient than the format as described above:

- `sscanf` counts conversions and never reports a mismatch after the last one. So text after
  the number of a header line is ignored (`rows=2 x`), and an entry line needs no closing
  parenthesis (`(1,2,3`, `(1,2,3]` and `(1,2,3)junk` all give the triple (1, 2, 3)).
- `%d` skips leading whitespace, so `rows= 2` is accepted.
- Duplicate coordinates are kept. `getElement` returns the first duplicate's value. In
  `add`/`subtract` the last duplicate of `this` wins and every duplicate of `other`
  contributes.

## Model

| member | source | states |
|---|---|---|
| Matrix.SparseMatrix.constructor | sparse_matrix.cpp:57 | `SparseMatrix(rows, cols)` has the given dimensions and no triples |
| Matrix.SparseMatrix.Load | sparse_matrix.cpp:19-55 | the file constructor fails exactly when `ParseText` does, with the same error kind; on success the fresh matrix holds the parsed dimensions and triples |
| Matrix.SparseMatrix.ReadEntries | sparse_matrix.cpp:44-54 | the `getline` loop succeeds exactly when every line scans, and then `elements` holds the scanned triples in file order |
| Matrix.SparseMatrix.GetElement | sparse_matrix.cpp:59-66 | the result is `Get(elements, r, c)`: the first matching triple's value, else 0, for any coordinates |
| Matrix.SparseMatrix.SetElement | sparse_matrix.cpp:68-76 | `elements` becomes `Updated(old elements, r, c, v)` and nothing else changes |
| Matrix.SparseMatrix.CopyOf | sparse_matrix.cpp:83-87 | a fresh matrix of the same dimensions into which every triple was copied with `setElement` |
| Matrix.SparseMatrix.Add | sparse_matrix.cpp:78-95 | differing dimensions give `DimensionMismatch(Addition)`; otherwise a fresh matrix of the same dimensions holding `SumEntries(this, other)`; neither operand changes |
| Matrix.SparseMatrix.Subtract | sparse_matrix.cpp:97-114 | as `Add`, with `DimensionMismatch(Subtraction)` and `DifferenceEntries` |
| Matrix.SparseMatrix.Multiply | sparse_matrix.cpp:116-133 | `numCols != other.numRows` gives `DimensionMismatch(Multiplication)`; otherwise a fresh `numRows x other.numCols` matrix holding `ProductEntries(this, other)` |
| Matrix.SparseMatrix.Print | sparse_matrix.cpp:135-142 | the values printed are `Grid(elements, numRows, numCols)` |
| Matrix.SparseMatrix.GetNumRows | sparse_matrix.cpp:144 | returns `numRows` |
| Matrix.SparseMatrix.GetNumCols | sparse_matrix.cpp:145 | returns `numCols` |
| Entries.Get | sparse_matrix.cpp:59-66 | the value `getElement` returns, by a scan from the front; characterised by `GetAtFirst` and `GetAbsent` |
| Entries.Updated | sparse_matrix.cpp:68-76 | the vector `setElement` leaves; characterised by `UpdatedOverwrites`, `UpdatedAppends` and `UpdatedGet` |
| Entries.GetAtFirst | sparse_matrix.cpp:59-63 | when triple k is the first at (r, c), `Get` is its value |
| Entries.GetAbsent | sparse_matrix.cpp:65 | with no triple at (r, c), `Get` is 0 |
| Entries.FirstMatch | sparse_matrix.cpp:60-61 | if some triple is at (r, c), there is a first one |
| Entries.UpdatedOverwrites | sparse_matrix.cpp:69-72 | if (r, c) is present, `setElement` changes only the first match's value and keeps the length |
| Entries.UpdatedAppends | sparse_matrix.cpp:75 | if (r, c) is absent, `setElement` appends exactly the triple (r, c, v) |
| Entries.UpdatedGet | sparse_matrix.cpp:68-76 | after `setElement(r, c, v)`, the value at (r, c) is v and every other coordinate keeps its value |
| Entries.UpdatedKeepsDistinct | sparse_matrix.cpp:68-76 | `setElement` keeps "no two triples share a coordinate" |
| Entries.GetAppend | sparse_matrix.cpp:53 | appending a triple changes `Get` only at a coordinate that was absent |
| Arithmetic.CopyIn | sparse_matrix.cpp:85-87 | the result after the copy loop of `add` (and lines 104-106 of `subtract`): `setElement` of each triple in storage order; characterised by `CopyInGet` and `CopyInDistinct` |
| Arithmetic.FoldIn | sparse_matrix.cpp:89-92 | the result after the second loop of `add` (and lines 108-111 of `subtract`): `getElement` then `setElement` of the sum (difference) for each triple of `other`; characterised by `FoldInGet` and `FoldInDistinct` |
| Arithmetic.RowProducts | sparse_matrix.cpp:124-129 | the result after the inner loop of `multiply` for one triple e1; characterised by `RowProductsGet` and `RowProductsDistinct` |
| Arithmetic.Products | sparse_matrix.cpp:123-130 | the result after the outer loop of `multiply`; characterised by `ProductsGet` and `ProductsDistinct` |
| Arithmetic.SumEntries | sparse_matrix.cpp:83-92 | the triples `add` leaves in its result; characterised by `SumEntriesGet`, `AddPointwise` and `ResultsDistinct` |
| Arithmetic.DifferenceEntries | sparse_matrix.cpp:102-111 | the triples `subtract` leaves in its result; characterised by `DifferenceEntriesGet`, `SubtractPointwise`, `SubtractThenAdd` and `ResultsDistinct` |
| Arithmetic.ProductEntries | sparse_matrix.cpp:121-130 | the triples `multiply` leaves in its result; characterised by `ProductEntriesGet`, `MultiplyDense` and `ResultsDistinct` |
| Arithmetic.CopyInGet | sparse_matrix.cpp:85-87 | copying triples in with `setElement` leaves, at each coordinate, the last copied duplicate's value, else the old value |
| Arithmetic.FoldInGet | sparse_matrix.cpp:89-92 | adding (subtracting) triples in with `getElement`/`setElement` adds (subtracts) the sum of all their values at each coordinate |
| Arithmetic.RowProductsGet | sparse_matrix.cpp:124-129 | the inner loop of `multiply` adds e1.value * e2.value at (e1.row, e2.col) for every e2 with e2.row == e1.col |
| Arithmetic.ProductsGet | sparse_matrix.cpp:123-130 | the two loops of `multiply` add the sum over all matching pairs |
| Arithmetic.CopyInDistinct | sparse_matrix.cpp:83-87 | the copy loop keeps a duplicate-free result duplicate-free |
| Arithmetic.FoldInDistinct | sparse_matrix.cpp:89-92 | the second loop of `add`/`subtract` keeps the result duplicate-free |
| Arithmetic.RowProductsDistinct | sparse_matrix.cpp:124-129 | the inner loop of `multiply` keeps the result duplicate-free |
| Arithmetic.ProductsDistinct | sparse_matrix.cpp:123-130 | the loops of `multiply` keep the result duplicate-free |
| Arithmetic.ResultsDistinct | sparse_matrix.cpp:83-91 | the results of `add`, `subtract` and `multiply` never hold two triples at one coordinate, whatever the operands |
| Arithmetic.LastIsNew | sparse_matrix.cpp:53 | in a duplicate-free vector, the last triple's coordinate occurs nowhere before it |
| Arithmetic.DistinctLastIsFirst | sparse_matrix.cpp:85-87 | without duplicates, the last value copied at a coordinate is the one `getElement` returns |
| Arithmetic.DistinctSumIsValue | sparse_matrix.cpp:89-92 | without duplicates, the sum of values at a coordinate is the one `getElement` returns |
| Arithmetic.SumEntriesGet | sparse_matrix.cpp:78-95 | `add` gives, at (r, c), the last duplicate of `this` (or 0) plus every value of `other` there |
| Arithmetic.DifferenceEntriesGet | sparse_matrix.cpp:97-114 | `subtract` gives, at (r, c), the last duplicate of `this` (or 0) minus every value of `other` there |
| Arithmetic.AddPointwise | sparse_matrix.cpp:78-95 | for duplicate-free operands, `add(B).getElement(r, c) == getElement(r, c) + B.getElement(r, c)` |
| Arithmetic.SubtractPointwise | sparse_matrix.cpp:97-114 | for duplicate-free operands, `subtract` gives the pointwise difference |
| Arithmetic.SubtractThenAdd | sparse_matrix.cpp:78-114 | `A.subtract(B).add(B)` has, at every coordinate, A's last duplicate there (or 0), which is `A.getElement` when A is duplicate-free |
| Arithmetic.ProductEntriesGet | sparse_matrix.cpp:116-133 | `multiply(B).getElement(i, j)` is the sum of e1.value * e2.value over pairs with e1.row == i, e1.col == e2.row, e2.col == j |
| Arithmetic.RowPairSumIsScaled | sparse_matrix.cpp:124-128 | one triple e1 of `this` contributes e1.value times the sum of B's values at (e1.col, j) |
| Arithmetic.DotTermAppend | sparse_matrix.cpp:123-128 | a new triple of `this` changes the term a(i, k) * b(k, j) only at its own coordinate |
| Arithmetic.DenseDotAppend | sparse_matrix.cpp:123-128 | a new triple of `this` adds its value times b(col, j) to the dense dot product of row i |
| Arithmetic.DenseDotEmpty | sparse_matrix.cpp:121 | the dense dot product over an empty matrix is 0 |
| Arithmetic.PairSumIsDense | sparse_matrix.cpp:123-130 | for duplicate-free operands with columns in [0, n), the pair sum equals the sum over k < n of a(i, k) * b(k, j) |
| Arithmetic.MultiplyDense | sparse_matrix.cpp:116-133 | for duplicate-free operands whose left operand's column indices all lie in [0, n), `multiply(B).getElement(i, j)` is the sum over 0 <= k < n of `getElement(i, k) * B.getElement(k, j)` |
| Arithmetic.DuplicateTieBreak | sparse_matrix.cpp:59-66 | with duplicates at (0, 0) holding 1 then 2, `getElement` gives 1, but the copy inside `add` gives 2 |
| Dense.Grid | sparse_matrix.cpp:135-142 | the values `print` writes: max(numRows, 0) lines of max(numCols, 0) cells, cell (i, j) being `getElement(i, j)`; see `GridShowsOnlyInRange` |
| Dense.Visible | sparse_matrix.cpp:136-137 | keeps exactly the in-range triples: every kept triple lies in [0, numRows) x [0, numCols) and is one of the stored triples, every stored in-range triple is kept, and there are no more than stored |
| Dense.VisibleGet | sparse_matrix.cpp:136-138 | inside the grid, dropping the out-of-range triples changes no value |
| Dense.GridShowsOnlyInRange | sparse_matrix.cpp:135-142 | the printed grid is the same with every out-of-range triple removed |
| TextFormat.StripSpaces | sparse_matrix.cpp:46 | the erase/remove_if line leaves no whitespace and never lengthens the line |
| TextFormat.StripSpacesConcat | sparse_matrix.cpp:46 | removing whitespace works piece by piece: the result for a + b is the result for a, then the result for b |
| TextFormat.StripSpacesChar | sparse_matrix.cpp:46 | a single character is removed exactly when it is whitespace; with `StripSpacesConcat`, every other character is kept, in order |
| TextFormat.StripNoSpaces | sparse_matrix.cpp:46 | a line without whitespace is left as it is |
| TextFormat.StripBlank | sparse_matrix.cpp:46 | a line of whitespace only becomes empty |
| TextFormat.SpaceRun | sparse_matrix.cpp:31 | `%d` skips a prefix of the input, never more than all of it |
| TextFormat.DigitRun | sparse_matrix.cpp:31 | the digits `%d` consumes form a prefix of digits |
| TextFormat.ScanInt | sparse_matrix.cpp:31 | a successful `%d` consumes at least one character |
| TextFormat.ScanSigned | sparse_matrix.cpp:31 | a successful signed conversion consumes at least one character |
| TextFormat.ScanDigits | sparse_matrix.cpp:31 | the unsigned part converts to a non-negative value and consumes at least one character |
| TextFormat.Sscanf | sparse_matrix.cpp:31 | `sscanf` converts at most one value per directive |
| TextFormat.Literals | sparse_matrix.cpp:31 | the ordinary characters of a format give one directive each |
| TextFormat.ParseEntries | sparse_matrix.cpp:44-54 | the entry loop succeeds iff every line scans; then there is one triple per line, in file order, with no deduplication |
| TextFormat.ScanHeader | sparse_matrix.cpp:31-39 | `sscanf(line, "rows=%d") == 1` (and `"cols=%d"`); characterised by `Grammar.AcceptedHeader`, `Grammar.NumeralHeaderScans` and `Grammar.HeaderNeedsKey` |
| TextFormat.ScanEntry | sparse_matrix.cpp:49 | `sscanf(line, "(%d,%d,%d)") == 3` and the triple read; characterised by `Grammar.AcceptedEntry` and `Grammar.EntryShapeScans` |
| TextFormat.ScanLine | sparse_matrix.cpp:46-49 | one entry line: whitespace removed, then `ScanEntry` |
| TextFormat.ParseText | sparse_matrix.cpp:19-55 | an unopenable file and only it gives `UnableToOpen`; every other failure is `WrongFormat`; on success there are at least two lines, rows and cols are the values `sscanf` reads from lines 1 and 2, and there is one triple per later line, the one `ScanLine` reads from it |
| TextFormat.NatText | sparse_matrix.cpp:31 | the decimal text of a number is a non-empty run of digits |
| TextFormat.NatTextValue | sparse_matrix.cpp:31 | reading the digits of n gives n back |
| TextFormat.DigitRunOf | sparse_matrix.cpp:31 | `%d` stops at the first non-digit |
| TextFormat.ScanDigitsText | sparse_matrix.cpp:31 | the unsigned conversion reads n's digits back as n |
| TextFormat.ScanMinus | sparse_matrix.cpp:49 | a leading minus sign negates the converted value |
| TextFormat.ScanIntText | sparse_matrix.cpp:31 | `%d` reads any integer's decimal text back, leaving what follows it |
| TextFormat.SscanfLiterals | sparse_matrix.cpp:31 | the ordinary characters of a format consume exactly themselves |
| TextFormat.SscanfDecimal | sparse_matrix.cpp:31 | a `%d` directive converts an integer's text and continues after it |
| TextFormat.ScanHeaderText | sparse_matrix.cpp:31 | `rows=<n>` (and `cols=<n>`) read as n whatever follows the number |
| TextFormat.SscanfLiteral | sparse_matrix.cpp:49 | one ordinary character of the format consumes itself |
| TextFormat.SscanfField | sparse_matrix.cpp:49 | a `,%d` pair reads the separator and the number |
| TextFormat.ScanEntryText | sparse_matrix.cpp:49 | `(r,c,v` reads as the triple (r, c, v) whatever follows it, closing parenthesis or not |
| TextFormat.NoSpacesConcat | sparse_matrix.cpp:46 | joining two lines without whitespace gives a line without whitespace |
| TextFormat.EntryLineHasNoSpaces | sparse_matrix.cpp:46 | removing whitespace leaves a written entry line unchanged |
| TextFormat.ParseSerialize | sparse_matrix.cpp:19-55 | parsing a file written from any dimensions and triples gives back exactly those dimensions and triples, in order and with duplicates |
| TextFormat.BlankLineRejected | sparse_matrix.cpp:46-51 | a blank (or whitespace-only) line after the headers is a format error |
| Grammar.DigitRunStops | sparse_matrix.cpp:31 | `%d` stops its digits at a non-digit or the end of the input |
| Grammar.ScanDigitsMeans | sparse_matrix.cpp:31 | the unsigned conversion gives (m, rest) exactly when the input is digits of value m followed by a `rest` that does not start with a digit |
| Grammar.ScanSignedMeans | sparse_matrix.cpp:31 | without leading whitespace, the conversion gives (n, rest) exactly when the input is an optional sign and digits of signed value n, then `rest` |
| Grammar.ScanIntSkipsSpace | sparse_matrix.cpp:31 | `%d` skips a leading whitespace character |
| Grammar.ReadsSkipsSpace | sparse_matrix.cpp:31 | a numeral may start with whitespace |
| Grammar.ScanIntMeans | sparse_matrix.cpp:49 | `%d` converts n and leaves `rest` exactly when the input is whitespace, an optional sign, at least one digit of signed value n, then a `rest` that does not start with a digit |
| Grammar.SscanfKey | sparse_matrix.cpp:31-39 | the ordinary characters of a format match exactly when the input starts with them, and nothing is converted otherwise |
| Grammar.SscanfLiteralStep | sparse_matrix.cpp:49 | one ordinary character of the format matches only itself |
| Grammar.SscanfDecimalStep | sparse_matrix.cpp:49 | a `%d` directive converts or stops the scan |
| Grammar.NumeralHeaderScans | sparse_matrix.cpp:39 | every line that is the key, then a numeral of n, then anything not starting with a digit, reads as n |
| Grammar.AcceptedHeader | sparse_matrix.cpp:31 | every accepted header line starts with its key, then a numeral of the value read |
| Grammar.HeaderNeedsKey | sparse_matrix.cpp:31-39 | a header line not starting with its key is rejected |
| Grammar.EntryFormatFields | sparse_matrix.cpp:49 | `"(%d,%d,%d)"` is three fields, each a punctuation character and a conversion |
| Grammar.FieldScans | sparse_matrix.cpp:49 | a field whose punctuation is present and whose numeral follows converts that number |
| Grammar.FieldScanned | sparse_matrix.cpp:49 | a field that converts something has its punctuation and a numeral |
| Grammar.AfterValueEmpty | sparse_matrix.cpp:49 | the closing `)` of the format converts nothing, so it cannot change the count |
| Grammar.EntryShapeScans | sparse_matrix.cpp:49 | every line that is `(`, a numeral, `,`, a numeral, `,`, a numeral, then anything not starting with a digit, reads as that triple |
| Grammar.AcceptedEntry | sparse_matrix.cpp:49 | every accepted entry line has that shape, with the triple read as its three numbers |
| Grammar.ParseTextAccepts | sparse_matrix.cpp:28-54 | the file constructor accepts a file exactly when it has two lines, line 1 and line 2 scan as `rows=` and `cols=` headers, and every later line scans as an entry |
| Grammar.RowsKeyRequired | sparse_matrix.cpp:28-33 | a first line not starting with `rows=` is a format error |
| Grammar.ColsKeyRequired | sparse_matrix.cpp:36-41 | a second line not starting with `cols=` is a format error |
| Grammar.EntryParenRequired | sparse_matrix.cpp:44-51 | a later line that, whitespace removed, does not start with `(` is a format error |
| Scenarios.SampleParses | sparse_matrix.cpp:19-55 | the file `rows=2`, `cols=2`, `(0,0,5)`, `(1,1,-3)` parses to a 2 x 2 matrix with those two triples |
| Scenarios.SampleGrid | sparse_matrix.cpp:135-142 | that matrix prints as the grid 5 0 / 0 -3 |
| Scenarios.ColonHeaderRejected | sparse_matrix.cpp:31-33 | a first line `rows:2` is a format error |
| Scenarios.HeaderTrailingTextIgnored | sparse_matrix.cpp:31 | `rows=2 x` is read as 2 rows |
| Scenarios.EntryTailIgnored | sparse_matrix.cpp:46-53 | `(1,2,3` followed by any text without whitespace that does not start with a digit reads as the triple (1, 2, 3) |
| Scenarios.UnclosedEntryAccepted | sparse_matrix.cpp:46-53 | `(1,2,3` and `(1,2,3]` both read as the triple (1, 2, 3) |
| Scenarios.OneTwoThreeText | sparse_matrix.cpp:49 | the written form of (1, 2, 3) is `(1,2,3` followed by the tail |
| Scenarios.InnerSpaceStripped | sparse_matrix.cpp:46 | removing whitespace from `(1,2, 3)` leaves `(1,2,3)` |
| Scenarios.InnerSpaceRemoved | sparse_matrix.cpp:46-49 | `(1,2, 3)` reads as the triple (1, 2, 3) |
| Scenarios.MultiDigitHeader | sparse_matrix.cpp:31 | `rows=12` reads as 12 rows: digits are read most significant first |

## Left out

- `main` (sparse_matrix.cpp:148-186) is not modelled: it reads the operation name and two paths
  from standard input, dispatches on the name, writes errors to standard error and sets the
  exit status. That includes the "Invalid operation" error.
- Opening the file (sparse_matrix.cpp:20-23) is a parameter: the lines `getline` returns, or
  None when the file cannot be opened. Reading errors other than end of file are not modelled.
- `print` is modelled as the grid of values it writes. The `std::cout` text, the trailing space
  after each value and `endl` are not modelled.
- Values are mathematical integers. The 32-bit `int` overflow of `value + value`, `value - value`,
  `value * value` (sparse_matrix.cpp:90, 109, 126) and of `%d` on out-of-range text is not
  modelled.
- `isspace` is the "C" locale set (space, tab, newline, vertical tab, form feed, carriage
  return); other locales are not modelled.
- `sscanf`'s EOF result (input ending before the first conversion) is modelled as a count of 0.
  Both differ from the count the code requires, so the outcome is the same.
- `%d` digits are ASCII `0`-`9`, read in base 10.
- Matrix.SparseMatrix.Multiply: the sum-over-k form (`Arithmetic.MultiplyDense`) is proved only
  for duplicate-free operands whose left operand's column indices lie in [0, n). Outside that, the general
  pair-sum form (`Arithmetic.ProductEntriesGet`) is what holds.
- Matrix.SparseMatrix.Add: the pointwise-sum form (`Arithmetic.AddPointwise`) is proved only for
  duplicate-free operands. With duplicates, the last-wins/sum-all form
  (`Arithmetic.SumEntriesGet`) is what holds. `Subtract` is alike.

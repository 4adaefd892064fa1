/** The class SparseMatrix: a vector of (row, column, value) triples and two dimensions.
    Each method is proved against the specification functions of Entries, Arithmetic,
    TextFormat and Dense. */
module Matrix {
  import opened Failures
  import opened Entries
  import opened Arithmetic
  import opened TextFormat
  import opened Dense

  class SparseMatrix {
    var elements: seq<Element>
    const numRows: int
    const numCols: int

    /** `SparseMatrix(int rows, int cols)`: the given dimensions, no triples. */
    constructor (rows: int, cols: int)
      ensures numRows == rows && numCols == cols && elements == []
    {
      numRows, numCols := rows, cols;
      elements := [];
    }

    /** The file constructor: header lines, then the entry lines appended one by one with
        no deduplication. `src` is None when the file cannot be opened. */
    static method Load(src: Option<seq<string>>) returns (r: Result<SparseMatrix, Error>)
      ensures r.Failure? <==> ParseText(src).Failure?
      ensures r.Failure? ==> r.error == ParseText(src).error
      ensures r.Success? ==> fresh(r.value)
      ensures r.Success? ==>
                ParseText(src).value == Parsed(r.value.numRows, r.value.numCols, r.value.elements)
    {
      if src.None? {
        return Failure(UnableToOpen);
      }
      var lines := src.value;
      if |lines| < 1 {
        return Failure(WrongFormat);
      }
      var rows := ScanHeader("rows=", lines[0]);
      if rows.None? {
        return Failure(WrongFormat);
      }
      if |lines| < 2 {
        return Failure(WrongFormat);
      }
      var cols := ScanHeader("cols=", lines[1]);
      if cols.None? {
        return Failure(WrongFormat);
      }
      var m := new SparseMatrix(rows.value, cols.value);
      var ok := m.ReadEntries(lines[2..]);
      if !ok {
        return Failure(WrongFormat);
      }
      return Success(m);
    }

    /** The constructor's `while (getline)` loop: each line, whitespace removed, is scanned
        and its triple appended; false at the first line that does not scan. */
    method ReadEntries(lines: seq<string>) returns (ok: bool)
      requires elements == []
      modifies this`elements
      ensures ok <==> ParseEntries(lines).Some?
      ensures ok ==> elements == ParseEntries(lines).value
    {
      var i := 0;
      while i < |lines|
        invariant 0 <= i <= |lines|
        invariant ParseEntries(lines[..i]) == Some(elements)
      {
        var entry := ScanLine(lines[i]);
        if entry.None? {
          return false;
        }
        assert lines[..i + 1][..i] == lines[..i];
        elements := elements + [entry.value];
        i := i + 1;
      }
      assert lines[..i] == lines;
      return true;
    }

    /** `getElement`: the first triple at (r, c) gives the value; 0 when there is none. */
    method GetElement(r: int, c: int) returns (v: int)
      ensures v == Get(elements, r, c)
    {
      var i := 0;
      while i < |elements|
        invariant 0 <= i <= |elements|
        invariant forall k :: 0 <= k < i ==> !At(elements[k], r, c)
      {
        if At(elements[i], r, c) {
          GetAtFirst(elements, r, c, i);
          return elements[i].value;
        }
        i := i + 1;
      }
      GetAbsent(elements, r, c);
      return 0;
    }

    /** `setElement`: overwrite the value of the first triple at (r, c), or append one. */
    method SetElement(r: int, c: int, v: int)
      modifies this`elements
      ensures elements == Updated(old(elements), r, c, v)
    {
      var i := 0;
      while i < |elements|
        invariant 0 <= i <= |elements|
        invariant elements == old(elements)
        invariant forall k :: 0 <= k < i ==> !At(elements[k], r, c)
      {
        if At(elements[i], r, c) {
          UpdatedOverwrites(elements, r, c, v, i);
          elements := elements[i := elements[i].(value := v)];
          return;
        }
        i := i + 1;
      }
      UpdatedAppends(elements, r, c, v);
      elements := elements + [Element(r, c, v)];
    }

    /** `add`: a fresh matrix holding this matrix's triples, then every triple of `other`
        added to the value at its coordinate. */
    method Add(other: SparseMatrix) returns (r: Result<SparseMatrix, Error>)
      ensures numRows != other.numRows || numCols != other.numCols ==>
                r == Failure(DimensionMismatch(Addition))
      ensures numRows == other.numRows && numCols == other.numCols ==>
                && r.Success? && fresh(r.value)
                && r.value.numRows == numRows && r.value.numCols == numCols
                && r.value.elements == SumEntries(elements, other.elements)
    {
      if numRows != other.numRows || numCols != other.numCols {
        return Failure(DimensionMismatch(Addition));
      }
      var result := CopyOf();
      var i := 0;
      while i < |other.elements|
        invariant 0 <= i <= |other.elements|
        invariant result.numRows == numRows && result.numCols == numCols
        invariant result.elements == FoldIn(CopyIn([], elements), other.elements[..i], Plus)
      {
        var e := other.elements[i];
        var current := result.GetElement(e.row, e.col);
        result.SetElement(e.row, e.col, current + e.value);
        assert other.elements[..i + 1][..i] == other.elements[..i];
        i := i + 1;
      }
      assert other.elements[..i] == other.elements;
      return Success(result);
    }

    /** `subtract`: as `add`, with every triple of `other` subtracted. */
    method Subtract(other: SparseMatrix) returns (r: Result<SparseMatrix, Error>)
      ensures numRows != other.numRows || numCols != other.numCols ==>
                r == Failure(DimensionMismatch(Subtraction))
      ensures numRows == other.numRows && numCols == other.numCols ==>
                && r.Success? && fresh(r.value)
                && r.value.numRows == numRows && r.value.numCols == numCols
                && r.value.elements == DifferenceEntries(elements, other.elements)
    {
      if numRows != other.numRows || numCols != other.numCols {
        return Failure(DimensionMismatch(Subtraction));
      }
      var result := CopyOf();
      var i := 0;
      while i < |other.elements|
        invariant 0 <= i <= |other.elements|
        invariant result.numRows == numRows && result.numCols == numCols
        invariant result.elements == FoldIn(CopyIn([], elements), other.elements[..i], Minus)
      {
        var e := other.elements[i];
        var current := result.GetElement(e.row, e.col);
        result.SetElement(e.row, e.col, current - e.value);
        assert other.elements[..i + 1][..i] == other.elements[..i];
        i := i + 1;
      }
      assert other.elements[..i] == other.elements;
      return Success(result);
    }

    /** The first half of `add` and `subtract`: a fresh matrix of the same dimensions into
        which every triple of this one is copied with `setElement`. */
    method CopyOf() returns (result: SparseMatrix)
      ensures fresh(result)
      ensures result.numRows == numRows && result.numCols == numCols
      ensures result.elements == CopyIn([], elements)
    {
      result := new SparseMatrix(numRows, numCols);
      var i := 0;
      while i < |elements|
        invariant 0 <= i <= |elements|
        invariant fresh(result)
        invariant result.numRows == numRows && result.numCols == numCols
        invariant result.elements == CopyIn([], elements[..i])
      {
        var e := elements[i];
        result.SetElement(e.row, e.col, e.value);
        assert elements[..i + 1][..i] == elements[..i];
        i := i + 1;
      }
      assert elements[..i] == elements;
    }

    /** `multiply`: for every pair of triples e1 of this, e2 of `other` with
        e1.col == e2.row, e1.value * e2.value is added at (e1.row, e2.col). */
    method Multiply(other: SparseMatrix) returns (r: Result<SparseMatrix, Error>)
      ensures numCols != other.numRows ==> r == Failure(DimensionMismatch(Multiplication))
      ensures numCols == other.numRows ==>
                && r.Success? && fresh(r.value)
                && r.value.numRows == numRows && r.value.numCols == other.numCols
                && r.value.elements == ProductEntries(elements, other.elements)
    {
      if numCols != other.numRows {
        return Failure(DimensionMismatch(Multiplication));
      }
      var result := new SparseMatrix(numRows, other.numCols);
      var i := 0;
      while i < |elements|
        invariant 0 <= i <= |elements|
        invariant result.elements == Products([], elements[..i], other.elements)
      {
        var e1 := elements[i];
        var j := 0;
        while j < |other.elements|
          invariant 0 <= j <= |other.elements|
          invariant result.elements
                 == RowProducts(Products([], elements[..i], other.elements), e1, other.elements[..j])
        {
          var e2 := other.elements[j];
          if e1.col == e2.row {
            var current := result.GetElement(e1.row, e2.col);
            result.SetElement(e1.row, e2.col, current + e1.value * e2.value);
          }
          assert other.elements[..j + 1][..j] == other.elements[..j];
          j := j + 1;
        }
        assert other.elements[..j] == other.elements;
        assert elements[..i + 1][..i] == elements[..i];
        i := i + 1;
      }
      assert elements[..i] == elements;
      return Success(result);
    }

    /** The values `print` writes: row i of the grid holds getElement(i, j) for
        0 <= j < numCols, for each 0 <= i < numRows. */
    method Print() returns (grid: seq<seq<int>>)
      ensures grid == Grid(elements, numRows, numCols)
    {
      grid := [];
      var i := 0;
      while i < numRows
        invariant 0 <= i <= Extent(numRows)
        invariant grid == Grid(elements, numRows, numCols)[..i]
      {
        var line := [];
        var j := 0;
        while j < numCols
          invariant 0 <= j <= Extent(numCols)
          invariant line == Grid(elements, numRows, numCols)[i][..j]
        {
          var v := GetElement(i, j);
          line := line + [v];
          j := j + 1;
        }
        assert line == Grid(elements, numRows, numCols)[i];
        assert Grid(elements, numRows, numCols)[..i + 1] == grid + [line];
        grid := grid + [line];
        i := i + 1;
      }
    }

    /** `getNumRows` */
    method GetNumRows() returns (n: int)
      ensures n == numRows
    {
      return numRows;
    }

    /** `getNumCols` */
    method GetNumCols() returns (n: int)
      ensures n == numCols
    {
      return numCols;
    }
  }
}

/** The dense grid that `print` writes: numRows lines of numCols values read with Get. */
module Dense {
  import opened Entries

  /** The number of iterations of `for (int i = 0; i < n; ++i)`. */
  function Extent(n: int): nat {
    if n < 0 then 0 else n
  }

  /** Line i, for 0 <= i < rows, holds Get(es, i, j) for 0 <= j < cols; no line when rows <= 0. */
  function Grid(es: seq<Element>, rows: int, cols: int): (g: seq<seq<int>>)
    ensures |g| == Extent(rows) && forall i :: 0 <= i < |g| ==> |g[i]| == Extent(cols)
  {
    seq(Extent(rows), i => seq(Extent(cols), j => Get(es, i, j)))
  }

  /** The triples that lie inside [0, rows) x [0, cols), in storage order. */
  function Visible(es: seq<Element>, rows: int, cols: int): (v: seq<Element>)
    ensures |v| <= |es|
    ensures forall k :: 0 <= k < |v| ==> 0 <= v[k].row < rows && 0 <= v[k].col < cols
    ensures forall k :: 0 <= k < |v| ==> v[k] in es
    ensures forall k :: 0 <= k < |es| && 0 <= es[k].row < rows && 0 <= es[k].col < cols ==> es[k] in v
  {
    if es == [] then []
    else
      var keep := if 0 <= es[0].row < rows && 0 <= es[0].col < cols then [es[0]] else [];
      keep + Visible(es[1..], rows, cols)
  }

  /** Dropping the out-of-range triples changes no in-range value. */
  lemma {:induction false} VisibleGet(es: seq<Element>, rows: int, cols: int, i: int, j: int)
    requires 0 <= i < rows && 0 <= j < cols
    ensures Get(Visible(es, rows, cols), i, j) == Get(es, i, j)
  {
    if es != [] {
      VisibleGet(es[1..], rows, cols, i, j);
      var rest := Visible(es[1..], rows, cols);
      if 0 <= es[0].row < rows && 0 <= es[0].col < cols {
        assert ([es[0]] + rest)[1..] == rest;
      } else {
        assert [] + rest == rest;
      }
    }
  }

  /** Stored triples outside the grid never show: the grid is the same without them. */
  lemma GridShowsOnlyInRange(es: seq<Element>, rows: int, cols: int)
    ensures Grid(es, rows, cols) == Grid(Visible(es, rows, cols), rows, cols)
  {
    var g, h := Grid(es, rows, cols), Grid(Visible(es, rows, cols), rows, cols);
    forall i | 0 <= i < Extent(rows) ensures g[i] == h[i] {
      forall j | 0 <= j < Extent(cols) ensures g[i][j] == h[i][j] {
        VisibleGet(es, rows, cols, i, j);
      }
    }
  }
}

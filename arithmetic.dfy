/** What add, subtract and multiply compute, as folds of `setElement` over the operands'
    triples in storage order, and what those folds mean coordinate by coordinate. */
module Arithmetic {
  import opened Entries

  datatype Sign = Plus | Minus

  function Apply(s: Sign, x: int, y: int): int {
    match s
    case Plus => x + y
    case Minus => x - y
  }

  /** The first loop of add and subtract: `setElement` of every triple of `es`, in order. */
  function CopyIn(acc: seq<Element>, es: seq<Element>): seq<Element>
  {
    if es == [] then acc
    else
      var n := |es| - 1;
      Updated(CopyIn(acc, es[..n]), es[n].row, es[n].col, es[n].value)
  }

  /** The second loop of add (Plus) and subtract (Minus): each triple of `es` is combined with
      the value currently stored at its coordinate. */
  function FoldIn(acc: seq<Element>, es: seq<Element>, s: Sign): seq<Element>
  {
    if es == [] then acc
    else
      var n := |es| - 1;
      var a := FoldIn(acc, es[..n], s);
      Updated(a, es[n].row, es[n].col, Apply(s, Get(a, es[n].row, es[n].col), es[n].value))
  }

  /** The inner loop of multiply for one triple `e1` of the left operand. */
  function RowProducts(acc: seq<Element>, e1: Element, ys: seq<Element>): seq<Element>
  {
    if ys == [] then acc
    else
      var n := |ys| - 1;
      var a := RowProducts(acc, e1, ys[..n]);
      if e1.col == ys[n].row then
        Updated(a, e1.row, ys[n].col, Get(a, e1.row, ys[n].col) + Product(e1, ys[n]))
      else a
  }

  /** `elem1.value * elem2.value`, the term multiply accumulates for a matching pair. */
  function Product(e1: Element, e2: Element): int {
    e1.value * e2.value
  }

  /** Both loops of multiply. */
  function Products(acc: seq<Element>, xs: seq<Element>, ys: seq<Element>): seq<Element>
  {
    if xs == [] then acc
    else
      var n := |xs| - 1;
      RowProducts(Products(acc, xs[..n], ys), xs[n], ys)
  }

  /** The triples of `add`, `subtract` and `multiply`, each started from an empty matrix. */
  function SumEntries(xs: seq<Element>, ys: seq<Element>): seq<Element> {
    FoldIn(CopyIn([], xs), ys, Plus)
  }

  function DifferenceEntries(xs: seq<Element>, ys: seq<Element>): seq<Element> {
    FoldIn(CopyIn([], xs), ys, Minus)
  }

  function ProductEntries(xs: seq<Element>, ys: seq<Element>): seq<Element> {
    Products([], xs, ys)
  }

  // ---- Independent reference definitions ----

  /** The value of the LAST triple stored at (r, c), or `d` when there is none. */
  function LastOr(es: seq<Element>, r: int, c: int, d: int): int
  {
    if es == [] then d
    else if At(es[|es| - 1], r, c) then es[|es| - 1].value
    else LastOr(es[..|es| - 1], r, c, d)
  }

  /** The sum of the values of ALL triples stored at (r, c). */
  function SumAt(es: seq<Element>, r: int, c: int): int
  {
    if es == [] then 0
    else SumAt(es[..|es| - 1], r, c) + (if At(es[|es| - 1], r, c) then es[|es| - 1].value else 0)
  }

  /** Sum of e1.value * e2.value over the triples e2 of `ys` with e1.row == i, e1.col == e2.row
      and e2.col == j. */
  function RowPairSum(e1: Element, ys: seq<Element>, i: int, j: int): int
  {
    if ys == [] then 0
    else
      var e2 := ys[|ys| - 1];
      RowPairSum(e1, ys[..|ys| - 1], i, j)
        + (if e1.row == i && e1.col == e2.row && e2.col == j then Product(e1, e2) else 0)
  }

  /** Sum of e1.value * e2.value over all pairs of triples e1 of `xs`, e2 of `ys` with
      e1.row == i, e1.col == e2.row and e2.col == j. */
  function PairSum(xs: seq<Element>, ys: seq<Element>, i: int, j: int): int
  {
    if xs == [] then 0
    else PairSum(xs[..|xs| - 1], ys, i, j) + RowPairSum(xs[|xs| - 1], ys, i, j)
  }

  /** The dense inner product: the sum over 0 <= k < n of Get(xs, i, k) * Get(ys, k, j). */
  function DenseDot(xs: seq<Element>, ys: seq<Element>, i: int, j: int, n: nat): int
  {
    if n == 0 then 0
    else DenseDot(xs, ys, i, j, n - 1) + DotTerm(xs, ys, i, j, n - 1)
  }

  /** The k-th term of the dense inner product of row i and column j. */
  function DotTerm(xs: seq<Element>, ys: seq<Element>, i: int, j: int, k: int): int {
    Get(xs, i, k) * Get(ys, k, j)
  }

  // ---- What the folds mean ----

  /** Copying triples in order leaves, at each coordinate, the value of the last one copied there. */
  lemma {:induction false} CopyInGet(acc: seq<Element>, es: seq<Element>, r: int, c: int)
    ensures Get(CopyIn(acc, es), r, c) == LastOr(es, r, c, Get(acc, r, c))
  {
    if es != [] {
      var n := |es| - 1;
      CopyInGet(acc, es[..n], r, c);
      UpdatedGet(CopyIn(acc, es[..n]), es[n].row, es[n].col, es[n].value, r, c);
    }
  }

  /** Combining triples in order adds (or subtracts) every one of them, duplicates included. */
  lemma {:induction false} FoldInGet(acc: seq<Element>, es: seq<Element>, s: Sign, r: int, c: int)
    ensures Get(FoldIn(acc, es, s), r, c) == Apply(s, Get(acc, r, c), SumAt(es, r, c))
  {
    if es != [] {
      var n := |es| - 1;
      var a := FoldIn(acc, es[..n], s);
      FoldInGet(acc, es[..n], s, r, c);
      UpdatedGet(a, es[n].row, es[n].col, Apply(s, Get(a, es[n].row, es[n].col), es[n].value), r, c);
    }
  }

  lemma {:induction false} RowProductsGet(acc: seq<Element>, e1: Element, ys: seq<Element>, i: int, j: int)
    ensures Get(RowProducts(acc, e1, ys), i, j) == Get(acc, i, j) + RowPairSum(e1, ys, i, j)
  {
    if ys != [] {
      var n := |ys| - 1;
      var a := RowProducts(acc, e1, ys[..n]);
      var e2 := ys[n];
      RowProductsGet(acc, e1, ys[..n], i, j);
      if e1.col == e2.row {
        UpdatedGet(a, e1.row, e2.col, Get(a, e1.row, e2.col) + Product(e1, e2), i, j);
      }
    }
  }

  lemma {:induction false} ProductsGet(acc: seq<Element>, xs: seq<Element>, ys: seq<Element>, i: int, j: int)
    ensures Get(Products(acc, xs, ys), i, j) == Get(acc, i, j) + PairSum(xs, ys, i, j)
  {
    if xs != [] {
      var n := |xs| - 1;
      ProductsGet(acc, xs[..n], ys, i, j);
      RowProductsGet(Products(acc, xs[..n], ys), xs[n], ys, i, j);
    }
  }

  // ---- Results are free of duplicates ----

  lemma {:induction false} CopyInDistinct(acc: seq<Element>, es: seq<Element>)
    requires Distinct(acc)
    ensures Distinct(CopyIn(acc, es))
  {
    if es != [] {
      var n := |es| - 1;
      CopyInDistinct(acc, es[..n]);
      UpdatedKeepsDistinct(CopyIn(acc, es[..n]), es[n].row, es[n].col, es[n].value);
    }
  }

  lemma {:induction false} FoldInDistinct(acc: seq<Element>, es: seq<Element>, s: Sign)
    requires Distinct(acc)
    ensures Distinct(FoldIn(acc, es, s))
  {
    if es != [] {
      var n := |es| - 1;
      var a := FoldIn(acc, es[..n], s);
      FoldInDistinct(acc, es[..n], s);
      UpdatedKeepsDistinct(a, es[n].row, es[n].col, Apply(s, Get(a, es[n].row, es[n].col), es[n].value));
    }
  }

  lemma {:induction false} RowProductsDistinct(acc: seq<Element>, e1: Element, ys: seq<Element>)
    requires Distinct(acc)
    ensures Distinct(RowProducts(acc, e1, ys))
  {
    if ys != [] {
      var n := |ys| - 1;
      var a := RowProducts(acc, e1, ys[..n]);
      RowProductsDistinct(acc, e1, ys[..n]);
      if e1.col == ys[n].row {
        UpdatedKeepsDistinct(a, e1.row, ys[n].col, Get(a, e1.row, ys[n].col) + e1.value * ys[n].value);
      }
    }
  }

  lemma {:induction false} ProductsDistinct(acc: seq<Element>, xs: seq<Element>, ys: seq<Element>)
    requires Distinct(acc)
    ensures Distinct(Products(acc, xs, ys))
  {
    if xs != [] {
      var n := |xs| - 1;
      ProductsDistinct(acc, xs[..n], ys);
      RowProductsDistinct(Products(acc, xs[..n], ys), xs[n], ys);
    }
  }

  /** The results of add, subtract and multiply never hold two triples at one coordinate. */
  lemma ResultsDistinct(xs: seq<Element>, ys: seq<Element>)
    ensures Distinct(SumEntries(xs, ys))
    ensures Distinct(DifferenceEntries(xs, ys))
    ensures Distinct(ProductEntries(xs, ys))
  {
    CopyInDistinct([], xs);
    FoldInDistinct(CopyIn([], xs), ys, Plus);
    FoldInDistinct(CopyIn([], xs), ys, Minus);
    ProductsDistinct([], xs, ys);
  }

  // ---- Without duplicates, first, last and sum agree ----

  /** Removing the last triple of a duplicate-free sequence leaves its coordinate absent. */
  lemma LastIsNew(es: seq<Element>)
    requires es != [] && Distinct(es)
    ensures Distinct(es[..|es| - 1])
    ensures !HasKey(es[..|es| - 1], es[|es| - 1].row, es[|es| - 1].col)
  {
    var n := |es| - 1;
    forall w | 0 <= w < n ensures !At(es[..n][w], es[n].row, es[n].col) {
      assert !At(es[n], es[w].row, es[w].col);
    }
  }

  lemma {:induction false} DistinctLastIsFirst(es: seq<Element>, r: int, c: int)
    requires Distinct(es)
    ensures LastOr(es, r, c, 0) == Get(es, r, c)
  {
    if es != [] {
      var n := |es| - 1;
      LastIsNew(es);
      DistinctLastIsFirst(es[..n], r, c);
      assert es[..n] + [es[n]] == es;
      GetAppend(es[..n], es[n], r, c);
      if !HasKey(es[..n], r, c) {
        GetAbsent(es[..n], r, c);
      }
    }
  }

  lemma {:induction false} DistinctSumIsValue(es: seq<Element>, r: int, c: int)
    requires Distinct(es)
    ensures SumAt(es, r, c) == Get(es, r, c)
  {
    if es != [] {
      var n := |es| - 1;
      LastIsNew(es);
      DistinctSumIsValue(es[..n], r, c);
      assert es[..n] + [es[n]] == es;
      GetAppend(es[..n], es[n], r, c);
      if !HasKey(es[..n], r, c) {
        GetAbsent(es[..n], r, c);
      }
    }
  }

  // ---- The element-wise contracts of add, subtract and multiply ----

  /** For any operands: the last copy of `xs` at (r, c) plus every triple of `ys` there. */
  lemma SumEntriesGet(xs: seq<Element>, ys: seq<Element>, r: int, c: int)
    ensures Get(SumEntries(xs, ys), r, c) == LastOr(xs, r, c, 0) + SumAt(ys, r, c)
  {
    FoldInGet(CopyIn([], xs), ys, Plus, r, c);
    CopyInGet([], xs, r, c);
  }

  lemma DifferenceEntriesGet(xs: seq<Element>, ys: seq<Element>, r: int, c: int)
    ensures Get(DifferenceEntries(xs, ys), r, c) == LastOr(xs, r, c, 0) - SumAt(ys, r, c)
  {
    FoldInGet(CopyIn([], xs), ys, Minus, r, c);
    CopyInGet([], xs, r, c);
  }

  /** For duplicate-free operands, addition is element-wise. */
  lemma AddPointwise(xs: seq<Element>, ys: seq<Element>, r: int, c: int)
    requires Distinct(xs) && Distinct(ys)
    ensures Get(SumEntries(xs, ys), r, c) == Get(xs, r, c) + Get(ys, r, c)
  {
    SumEntriesGet(xs, ys, r, c);
    DistinctLastIsFirst(xs, r, c);
    DistinctSumIsValue(ys, r, c);
  }

  /** For duplicate-free operands, subtraction is element-wise. */
  lemma SubtractPointwise(xs: seq<Element>, ys: seq<Element>, r: int, c: int)
    requires Distinct(xs) && Distinct(ys)
    ensures Get(DifferenceEntries(xs, ys), r, c) == Get(xs, r, c) - Get(ys, r, c)
  {
    DifferenceEntriesGet(xs, ys, r, c);
    DistinctLastIsFirst(xs, r, c);
    DistinctSumIsValue(ys, r, c);
  }

  /** Subtracting and then adding back `ys` restores, at every coordinate, the last value stored
      for it in `xs`; for a duplicate-free `xs` that is the value `xs` reads there. */
  lemma SubtractThenAdd(xs: seq<Element>, ys: seq<Element>, r: int, c: int)
    ensures Get(SumEntries(DifferenceEntries(xs, ys), ys), r, c) == LastOr(xs, r, c, 0)
    ensures Distinct(xs) ==> Get(SumEntries(DifferenceEntries(xs, ys), ys), r, c) == Get(xs, r, c)
  {
    var d := DifferenceEntries(xs, ys);
    ResultsDistinct(xs, ys);
    SumEntriesGet(d, ys, r, c);
    DistinctLastIsFirst(d, r, c);
    DifferenceEntriesGet(xs, ys, r, c);
    if Distinct(xs) {
      DistinctLastIsFirst(xs, r, c);
    }
  }

  /** For any operands, the product at (i, j) sums the products of all matching pairs of triples. */
  lemma ProductEntriesGet(xs: seq<Element>, ys: seq<Element>, i: int, j: int)
    ensures Get(ProductEntries(xs, ys), i, j) == PairSum(xs, ys, i, j)
  {
    ProductsGet([], xs, ys, i, j);
  }

  lemma {:induction false} RowPairSumIsScaled(e1: Element, ys: seq<Element>, i: int, j: int)
    ensures RowPairSum(e1, ys, i, j) == if e1.row == i then e1.value * SumAt(ys, e1.col, j) else 0
  {
    if ys != [] {
      var n := |ys| - 1;
      RowPairSumIsScaled(e1, ys[..n], i, j);
      if e1.row == i {
        var s := SumAt(ys[..n], e1.col, j);
        var t := if At(ys[n], e1.col, j) then ys[n].value else 0;
        Distribute(e1.value, s, t);
      }
    }
  }

  lemma Distribute(a: int, x: int, y: int)
    ensures a * (x + y) == a * x + a * y
    ensures (x + y) * a == x * a + y * a
  {
  }

  /** What one triple `e` of the left operand adds to the inner product of row e.row and
      column j, when the right operand is read with Get. */
  function Weighted(e: Element, ys: seq<Element>, j: int): int {
    e.value * Get(ys, e.col, j)
  }

  /** Appending a triple at a fresh coordinate changes one term of a dense inner product. */
  lemma DotTermAppend(p: seq<Element>, e: Element, ys: seq<Element>, i: int, j: int, k: int)
    requires !HasKey(p, e.row, e.col)
    ensures DotTerm(p + [e], ys, i, j, k) == DotTerm(p, ys, i, j, k) + (if At(e, i, k) then Weighted(e, ys, j) else 0)
  {
    GetAppend(p, e, i, k);
    if !HasKey(p, i, k) {
      GetAbsent(p, i, k);
    }
    if At(e, i, k) {
      assert DotTerm(p, ys, i, j, k) == 0 * Get(ys, k, j) == 0;
      assert DotTerm(p + [e], ys, i, j, k) == e.value * Get(ys, e.col, j);
    }
  }

  /** Appending a triple at a fresh coordinate adds its one term to the dense inner product. */
  lemma {:induction false} DenseDotAppend(p: seq<Element>, e: Element, ys: seq<Element>, i: int, j: int, n: nat)
    requires !HasKey(p, e.row, e.col)
    ensures DenseDot(p + [e], ys, i, j, n)
         == DenseDot(p, ys, i, j, n) + (if e.row == i && 0 <= e.col < n then Weighted(e, ys, j) else 0)
  {
    if n > 0 {
      DenseDotAppend(p, e, ys, i, j, n - 1);
      DotTermAppend(p, e, ys, i, j, n - 1);
    }
  }

  /** For duplicate-free operands whose left triples have columns in [0, n), the product at
      (i, j) is the sum over 0 <= k < n of Get(xs, i, k) * Get(ys, k, j). */
  lemma {:induction false} PairSumIsDense(xs: seq<Element>, ys: seq<Element>, i: int, j: int, n: nat)
    requires Distinct(xs) && Distinct(ys)
    requires forall k :: 0 <= k < |xs| ==> 0 <= xs[k].col < n
    ensures PairSum(xs, ys, i, j) == DenseDot(xs, ys, i, j, n)
  {
    if xs == [] {
      DenseDotEmpty(ys, i, j, n);
    } else {
      var m := |xs| - 1;
      var e := xs[m];
      LastIsNew(xs);
      PairSumIsDense(xs[..m], ys, i, j, n);
      RowPairSumIsScaled(e, ys, i, j);
      DistinctSumIsValue(ys, e.col, j);
      DenseDotAppend(xs[..m], e, ys, i, j, n);
      assert xs[..m] + [e] == xs;
    }
  }

  lemma {:induction false} DenseDotEmpty(ys: seq<Element>, i: int, j: int, n: nat)
    ensures DenseDot([], ys, i, j, n) == 0
  {
    if n > 0 {
      DenseDotEmpty(ys, i, j, n - 1);
      assert Get([], i, n - 1) == 0;
      assert Get([], i, n - 1) * Get(ys, n - 1, j) == 0;
    }
  }

  lemma MultiplyDense(xs: seq<Element>, ys: seq<Element>, i: int, j: int, n: nat)
    requires Distinct(xs) && Distinct(ys)
    requires forall k :: 0 <= k < |xs| ==> 0 <= xs[k].col < n
    ensures Get(ProductEntries(xs, ys), i, j) == DenseDot(xs, ys, i, j, n)
  {
    ProductEntriesGet(xs, ys, i, j);
    PairSumIsDense(xs, ys, i, j, n);
  }

  /** With two triples at one coordinate, reading gives the first while add's copy keeps the last. */
  lemma DuplicateTieBreak()
    ensures Get([Element(0, 0, 1), Element(0, 0, 2)], 0, 0) == 1
    ensures Get(SumEntries([Element(0, 0, 1), Element(0, 0, 2)], []), 0, 0) == 2
  {
    SumEntriesGet([Element(0, 0, 1), Element(0, 0, 2)], [], 0, 0);
  }
}

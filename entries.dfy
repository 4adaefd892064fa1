/** The stored triples of a sparse matrix and what they mean: the value at (row, column). */
module Entries {

  /** One stored (row, column, value) triple. Coordinates are never range-checked. */
  datatype Element = Element(row: int, col: int, value: int)

  predicate At(e: Element, r: int, c: int) {
    e.row == r && e.col == c
  }

  ghost predicate HasKey(es: seq<Element>, r: int, c: int) {
    exists k :: 0 <= k < |es| && At(es[k], r, c)
  }

  /** `k` is the index of the first triple stored at (r, c). */
  ghost predicate FirstAt(es: seq<Element>, r: int, c: int, k: int) {
    0 <= k < |es| && At(es[k], r, c) && forall j :: 0 <= j < k ==> !At(es[j], r, c)
  }

  /** No two stored triples share a coordinate. */
  ghost predicate Distinct(es: seq<Element>) {
    forall i, j :: 0 <= i < j < |es| ==> !At(es[j], es[i].row, es[i].col)
  }

  /** The value at (r, c), scanning the triples from the front (GetAtFirst and GetAbsent
      characterise it). */
  function Get(es: seq<Element>, r: int, c: int): int
  {
    if es == [] then 0
    else if At(es[0], r, c) then es[0].value
    else Get(es[1..], r, c)
  }

  /** The value at (r, c) is that of the first triple stored there... */
  lemma {:induction false} GetAtFirst(es: seq<Element>, r: int, c: int, k: int)
    requires FirstAt(es, r, c, k)
    ensures Get(es, r, c) == es[k].value
  {
    if k > 0 {
      assert !At(es[0], r, c);
      assert FirstAt(es[1..], r, c, k - 1);
      GetAtFirst(es[1..], r, c, k - 1);
    }
  }

  /** ... and 0 when no triple is stored there. */
  lemma {:induction false} GetAbsent(es: seq<Element>, r: int, c: int)
    requires !HasKey(es, r, c)
    ensures Get(es, r, c) == 0
  {
    if es != [] {
      assert !At(es[0], r, c);
      assert !HasKey(es[1..], r, c) by {
        forall k | 0 <= k < |es| - 1 ensures !At(es[1..][k], r, c) {
          assert es[1..][k] == es[k + 1];
        }
      }
      GetAbsent(es[1..], r, c);
    }
  }

  /** The triples after `setElement(r, c, v)`: the first triple at (r, c) takes value v, or
      (r, c, v) is appended when there is none. */
  function Updated(es: seq<Element>, r: int, c: int, v: int): seq<Element>
  {
    if es == [] then [Element(r, c, v)]
    else if At(es[0], r, c) then [es[0].(value := v)] + es[1..]
    else [es[0]] + Updated(es[1..], r, c, v)
  }

  /** The first triple at a coordinate that is present. */
  lemma {:induction false} FirstMatch(es: seq<Element>, r: int, c: int) returns (k: int)
    requires HasKey(es, r, c)
    ensures FirstAt(es, r, c, k)
  {
    if At(es[0], r, c) {
      k := 0;
    } else {
      var w :| 0 <= w < |es| && At(es[w], r, c);
      assert At(es[1..][w - 1], r, c);
      k := FirstMatch(es[1..], r, c);
      k := k + 1;
    }
  }

  /** When (r, c) is present, only the value of its first triple changes; the count does not. */
  lemma {:induction false} UpdatedOverwrites(es: seq<Element>, r: int, c: int, v: int, k: int)
    requires FirstAt(es, r, c, k)
    ensures Updated(es, r, c, v) == es[k := es[k].(value := v)]
  {
    if k > 0 {
      assert FirstAt(es[1..], r, c, k - 1);
      UpdatedOverwrites(es[1..], r, c, v, k - 1);
      assert es[k := es[k].(value := v)] == [es[0]] + es[1..][k - 1 := es[k].(value := v)];
    }
  }

  /** When (r, c) is absent, exactly one triple (r, c, v) is appended at the end. */
  lemma {:induction false} UpdatedAppends(es: seq<Element>, r: int, c: int, v: int)
    requires !HasKey(es, r, c)
    ensures Updated(es, r, c, v) == es + [Element(r, c, v)]
  {
    if es != [] {
      assert !At(es[0], r, c);
      assert !HasKey(es[1..], r, c) by {
        forall k | 0 <= k < |es| - 1 ensures !At(es[1..][k], r, c) {
          assert es[1..][k] == es[k + 1];
        }
      }
      UpdatedAppends(es[1..], r, c, v);
      assert es + [Element(r, c, v)] == [es[0]] + (es[1..] + [Element(r, c, v)]);
    }
  }

  /** After setting (r, c) to v, the value there is v and every other coordinate keeps its value. */
  lemma {:induction false} UpdatedGet(es: seq<Element>, r: int, c: int, v: int, r': int, c': int)
    ensures Get(Updated(es, r, c, v), r', c') == if r' == r && c' == c then v else Get(es, r', c')
  {
    if es != [] && !At(es[0], r, c) {
      UpdatedGet(es[1..], r, c, v, r', c');
      assert ([es[0]] + Updated(es[1..], r, c, v))[1..] == Updated(es[1..], r, c, v);
    } else if es != [] {
      assert ([es[0].(value := v)] + es[1..])[1..] == es[1..];
    }
  }

  /** Setting a value keeps the coordinates of the triples pairwise distinct. */
  lemma UpdatedKeepsDistinct(es: seq<Element>, r: int, c: int, v: int)
    requires Distinct(es)
    ensures Distinct(Updated(es, r, c, v))
  {
    if HasKey(es, r, c) {
      var k := FirstMatch(es, r, c);
      UpdatedOverwrites(es, r, c, v, k);
    } else {
      UpdatedAppends(es, r, c, v);
    }
  }

  /** Reading through one more triple appended at the end: it is seen only where nothing earlier is. */
  lemma {:induction false} GetAppend(p: seq<Element>, e: Element, r: int, c: int)
    ensures Get(p + [e], r, c) == if HasKey(p, r, c) then Get(p, r, c) else if At(e, r, c) then e.value else 0
  {
    if p == [] {
      assert [] + [e] == [e];
    } else {
      assert (p + [e])[1..] == p[1..] + [e];
      GetAppend(p[1..], e, r, c);
      if !At(p[0], r, c) && HasKey(p, r, c) {
        var w :| 0 <= w < |p| && At(p[w], r, c);
        assert At(p[1..][w - 1], r, c);
      }
      if HasKey(p[1..], r, c) {
        var w :| 0 <= w < |p| - 1 && At(p[1..][w], r, c);
        assert At(p[w + 1], r, c);
      }
    }
  }
}

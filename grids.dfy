/**
 * The grid as a value: a rectangular sequence of rows of materials,
 * addressed by (row, column), with the cell exchange used by every rule
 * of the physics pass and a census of the materials in a band of rows.
 */
module Grids {
  import opened Materials

  datatype Option<T> = None | Some(value: T)

  type Grid = seq<seq<Material>>

  datatype Pos = Pos(row: int, col: int)

  function Width(g: Grid): nat
  {
    if |g| == 0 then 0 else |g[0]|
  }

  /** Every row has the same length. */
  predicate Rectangular(g: Grid)
  {
    forall r :: 0 <= r < |g| ==> |g[r]| == Width(g)
  }

  predicate InBounds(g: Grid, p: Pos)
  {
    0 <= p.row < |g| && 0 <= p.col < Width(g)
  }

  /** Two grids with the same number of rows and columns. */
  predicate SameShape(g: Grid, h: Grid)
  {
    Rectangular(g) && Rectangular(h) && |g| == |h| && Width(g) == Width(h)
  }

  function At(g: Grid, p: Pos): Material
    requires Rectangular(g) && InBounds(g, p)
  {
    g[p.row][p.col]
  }

  /** Overwrite one cell. */
  function Write(g: Grid, p: Pos, v: Material): (h: Grid)
    requires Rectangular(g) && InBounds(g, p)
    ensures SameShape(g, h)
    ensures At(h, p) == v
    ensures forall q :: InBounds(g, q) && q != p ==> At(h, q) == At(g, q)
  {
    g[p.row := g[p.row][p.col := v]]
  }

  /** Exchange the contents of two cells (`swap`, `std::swap`). */
  function Swap(g: Grid, p: Pos, q: Pos): (h: Grid)
    requires Rectangular(g) && InBounds(g, p) && InBounds(g, q)
    ensures SameShape(g, h)
    ensures At(h, p) == At(g, q) && At(h, q) == At(g, p)
    ensures forall s :: InBounds(g, s) && s != p && s != q ==> At(h, s) == At(g, s)
  {
    Write(Write(g, p, At(g, q)), q, At(g, p))
  }

  /** Two grids of one shape that agree on every cell are equal. */
  lemma {:induction false} GridExt(g: Grid, h: Grid)
    requires SameShape(g, h)
    requires forall p :: InBounds(g, p) ==> At(g, p) == At(h, p)
    ensures g == h
  {
    forall r | 0 <= r < |g|
      ensures g[r] == h[r]
    {
      forall c | 0 <= c < |g[r]|
        ensures g[r][c] == h[r][c]
      {
        assert At(g, Pos(r, c)) == At(h, Pos(r, c));
      }
    }
  }

  /** Exchanging two equal cells (in particular a cell with itself) changes nothing. */
  lemma SwapEqual(g: Grid, p: Pos, q: Pos)
    requires Rectangular(g) && InBounds(g, p) && InBounds(g, q)
    requires At(g, p) == At(g, q)
    ensures Swap(g, p, q) == g
  {
    GridExt(Swap(g, p, q), g);
  }

  /** The order of the two cells does not matter. */
  lemma SwapSymmetric(g: Grid, p: Pos, q: Pos)
    requires Rectangular(g) && InBounds(g, p) && InBounds(g, q)
    ensures Swap(g, p, q) == Swap(g, q, p)
  {
    GridExt(Swap(g, p, q), Swap(g, q, p));
  }

  /** An exchange leaves every row that holds neither cell as it was. */
  lemma SwapOtherRows(g: Grid, p: Pos, q: Pos)
    requires Rectangular(g) && InBounds(g, p) && InBounds(g, q)
    ensures forall i :: 0 <= i < |g| && i != p.row && i != q.row ==> Swap(g, p, q)[i] == g[i]
  {
  }

  /** The materials held by rows lo .. hi-1, with multiplicity. */
  function Census(g: Grid, lo: int, hi: int): multiset<Material>
    requires 0 <= lo <= hi <= |g|
    decreases hi - lo
  {
    if lo == hi then multiset{} else multiset(g[lo]) + Census(g, lo + 1, hi)
  }

  /** The number of cells holding m in rows lo .. hi-1. */
  function Count(g: Grid, lo: int, hi: int, m: Material): nat
    requires 0 <= lo <= hi <= |g|
    decreases hi - lo
  {
    if lo == hi then 0 else multiset(g[lo])[m] + Count(g, lo + 1, hi, m)
  }

  /** One if the material a is m, else zero. */
  function One(a: Material, m: Material): nat
  {
    if a == m then 1 else 0
  }

  /** The number of grains (sand and dirt) in rows lo to the bottom. */
  function GrainsFrom(g: Grid, lo: int): nat
    requires 0 <= lo <= |g|
  {
    Count(g, lo, |g|, Sand) + Count(g, lo, |g|, Dirt)
  }

  /** The census of a band holds each material as often as the band counts it. */
  lemma {:induction false} CensusCounts(g: Grid, lo: int, hi: int)
    requires 0 <= lo <= hi <= |g|
    ensures forall m :: Census(g, lo, hi)[m] == Count(g, lo, hi, m)
    decreases hi - lo
  {
    if lo < hi {
      CensusCounts(g, lo + 1, hi);
    }
  }

  /** A count only depends on the rows it covers. */
  lemma {:induction false} CountOfSameRows(g: Grid, h: Grid, lo: int, hi: int, m: Material)
    requires 0 <= lo <= hi <= |g| && hi <= |h|
    requires forall r :: lo <= r < hi ==> g[r] == h[r]
    ensures Count(g, lo, hi, m) == Count(h, lo, hi, m)
    decreases hi - lo
  {
    if lo < hi {
      CountOfSameRows(g, h, lo + 1, hi, m);
    }
  }

  /** The count of a band is the sum of the counts of its two halves. */
  lemma {:induction false} CountSplit(g: Grid, lo: int, mid: int, hi: int, m: Material)
    requires 0 <= lo <= mid <= hi <= |g|
    ensures Count(g, lo, hi, m) == Count(g, lo, mid, m) + Count(g, mid, hi, m)
    decreases mid - lo
  {
    if lo < mid {
      CountSplit(g, lo + 1, mid, hi, m);
    }
  }

  lemma RowWrite(s: seq<Material>, c: int, v: Material, m: Material)
    requires 0 <= c < |s|
    ensures multiset(s[c := v])[m] + One(s[c], m) == multiset(s)[m] + One(v, m)
  {
    assert s == s[..c] + [s[c]] + s[c + 1..];
    assert s[c := v] == s[..c] + [v] + s[c + 1..];
  }

  /** Overwriting one cell inside the band trades one occurrence of its old material for one of v. */
  lemma {:induction false} CountWrite(g: Grid, p: Pos, v: Material, lo: int, hi: int, m: Material)
    requires Rectangular(g) && InBounds(g, p)
    requires 0 <= lo <= hi <= |g|
    ensures lo <= p.row < hi ==>
      Count(Write(g, p, v), lo, hi, m) + One(At(g, p), m) == Count(g, lo, hi, m) + One(v, m)
    ensures !(lo <= p.row < hi) ==> Count(Write(g, p, v), lo, hi, m) == Count(g, lo, hi, m)
    decreases hi - lo
  {
    if lo < hi {
      var h := Write(g, p, v);
      CountWrite(g, p, v, lo + 1, hi, m);
      if lo == p.row {
        assert h[lo] == g[lo][p.col := v];
        RowWrite(g[lo], p.col, v, m);
        CountOfSameRows(g, h, lo + 1, hi, m);
      } else {
        assert h[lo] == g[lo];
      }
    }
  }

  /**
   * Exchanging two cells keeps the count of a band that holds both or
   * neither of them; for a band holding only one of them, the material of
   * the outside cell moves in and that of the inside cell moves out.
   */
  lemma CountSwap(g: Grid, p: Pos, q: Pos, lo: int, hi: int, m: Material)
    requires Rectangular(g) && InBounds(g, p) && InBounds(g, q)
    requires 0 <= lo <= hi <= |g|
    ensures (lo <= p.row < hi) == (lo <= q.row < hi) ==>
      Count(Swap(g, p, q), lo, hi, m) == Count(g, lo, hi, m)
    ensures !(lo <= p.row < hi) && lo <= q.row < hi ==>
      Count(Swap(g, p, q), lo, hi, m) + One(At(g, q), m) == Count(g, lo, hi, m) + One(At(g, p), m)
    ensures lo <= p.row < hi && !(lo <= q.row < hi) ==>
      Count(Swap(g, p, q), lo, hi, m) + One(At(g, p), m) == Count(g, lo, hi, m) + One(At(g, q), m)
  {
    var a, b := At(g, p), At(g, q);
    var g1 := Write(g, p, b);
    if p == q {
      SwapEqual(g, p, q);
    } else {
      assert At(g1, q) == b;
      CountWrite(g, p, b, lo, hi, m);
      CountWrite(g1, q, a, lo, hi, m);
    }
  }
}

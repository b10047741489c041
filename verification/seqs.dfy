/** Flattening a sequence of rows, the shape both nested loops of the map
    generator and the line-by-line rendered text have. */
module Seqs {

  /** The rows one after another. */
  function Concat<T>(rows: seq<seq<T>>): seq<T>
  {
    if |rows| == 0 then [] else Concat(rows[..|rows| - 1]) + rows[|rows| - 1]
  }

  /** Multiplying by a positive width grows by one width per step. */
  lemma {:induction false} MulStep(w: int, k: nat)
    requires w > 0
    ensures w * k >= k && w * (k + 1) == w * k + w
    decreases k
  {
    if k > 0 {
      MulStep(w, k - 1);
    }
  }

  /** Multiplying by a positive width is monotone. */
  lemma {:induction false} MulMono(w: int, a: nat, b: nat)
    requires w > 0 && a <= b
    ensures w * a <= w * b
    decreases b - a
  {
    if a < b {
      MulMono(w, a, b - 1);
      MulStep(w, b - 1);
    }
  }

  /** Euclidean division is fixed by its bracket: `w*q <= i < w*q + w`
      makes `q` the quotient and `i - w*q` the remainder. */
  lemma DivBracket(i: int, w: int, q: nat)
    requires w > 0 && w * q <= i < w * q + w
    ensures i / w == q && i % w == i - w * q
  {
    var q' := i / w;
    assert i == w * q' + i % w && 0 <= i % w < w;
    assert q' >= 0;
    if q' > q {
      MulMono(w, q + 1, q');
      MulStep(w, q);
    } else if q' < q {
      MulMono(w, q' + 1, q);
      MulStep(w, q');
    }
  }

  /** An index below `m` rows of width `w` lies in one of those rows. */
  lemma DivBelow(i: int, w: int, m: nat)
    requires w > 0 && 0 <= i < w * m
    ensures 0 <= i / w < m
  {
    var q := i / w;
    assert i == w * q + i % w && 0 <= i % w < w;
    if q >= m {
      MulMono(w, m, q);
    }
  }

  /** Rows of width `w`: element `i` of the flattening is column `i % w`
      of row `i / w`. */
  lemma {:induction false} ConcatRows<T>(rows: seq<seq<T>>, w: int)
    requires w > 0
    requires forall k :: 0 <= k < |rows| ==> |rows[k]| == w
    ensures |Concat(rows)| == w * |rows|
    ensures forall i :: 0 <= i < |Concat(rows)| ==> Concat(rows)[i] == rows[i / w][i % w]
  {
    if |rows| > 0 {
      var n := |rows|;
      var front := rows[..n - 1];
      ConcatRows(front, w);
      MulStep(w, n - 1);
      forall i | 0 <= i < |Concat(rows)|
        ensures 0 <= i / w < n && 0 <= i % w < w && Concat(rows)[i] == rows[i / w][i % w]
      {
        DivBelow(i, w, n);
        if i < w * (n - 1) {
          assert Concat(rows)[i] == Concat(front)[i];
          DivBelow(i, w, n - 1);
          assert front[i / w] == rows[i / w];
        } else {
          DivBracket(i, w, n - 1);
        }
      }
    }
  }

  /** The flattening of a prefix of rows is a prefix of the flattening. */
  lemma ConcatPrefix<T>(rows: seq<seq<T>>, n: nat)
    requires 0 < n <= |rows|
    ensures Concat(rows[..n]) == Concat(rows[..n - 1]) + rows[n - 1]
  {
    assert rows[..n][..n - 1] == rows[..n - 1];
  }

  /** Flattening a row in front of others puts it first. */
  lemma {:induction false} ConcatCons<T>(a: seq<T>, rest: seq<seq<T>>)
    ensures Concat([a] + rest) == a + Concat(rest)
    decreases |rest|
  {
    var s := [a] + rest;
    if |rest| == 0 {
      assert s[..0] == [];
    } else {
      var n := |rest|;
      var front := rest[..n - 1];
      assert s[..|s| - 1] == [a] + front && s[|s| - 1] == rest[n - 1];
      ConcatCons(a, front);
      assert Concat(s) == (a + Concat(front)) + rest[n - 1];
      assert Concat(rest) == Concat(front) + rest[n - 1];
    }
  }

  /** A non-empty prefix is the shorter prefix and one more element. */
  lemma TakeSnoc<T>(s: seq<T>, m: nat)
    requires 0 < m <= |s|
    ensures s[..m] == s[..m - 1] + [s[m - 1]]
  {
  }
}

/** Generic sequence helpers: a list comprehension over a sequence and the
    concatenation of a list of lists, with the index facts the render
    collector's layout lemmas are built from. */
module Seqs {

  /** `[f(x) for x in xs]`. */
  function MapSeq<A, B>(f: A -> B, xs: seq<A>): (r: seq<B>)
    ensures |r| == |xs|
  {
    seq(|xs|, i requires 0 <= i < |xs| => f(xs[i]))
  }

  /** Position `k` of the comprehension is `f` of position `k`. */
  lemma MapSeqAt<A, B>(f: A -> B, xs: seq<A>, k: nat)
    requires k < |xs|
    ensures MapSeq(f, xs)[k] == f(xs[k])
  {
  }

  /** Extending the input by its next element extends the output by `f`
      of it. */
  lemma MapSeqSnoc<A, B>(f: A -> B, xs: seq<A>, j: nat)
    requires j < |xs|
    ensures MapSeq(f, xs[..j + 1]) == MapSeq(f, xs[..j]) + [f(xs[j])]
  {
  }

  /** The rows one after another. */
  function Concat<T>(rows: seq<seq<T>>): seq<T> {
    if |rows| == 0 then [] else Concat(rows[..|rows| - 1]) + rows[|rows| - 1]
  }

  lemma ConcatSnoc<T>(rows: seq<seq<T>>, row: seq<T>)
    ensures Concat(rows + [row]) == Concat(rows) + row
  {
    assert (rows + [row])[..|rows|] == rows;
  }

  /** Rows of equal width `w` concatenate to `|rows| * w` elements. */
  lemma {:induction false} ConcatLength<T>(rows: seq<seq<T>>, w: nat)
    requires forall i :: 0 <= i < |rows| ==> |rows[i]| == w
    ensures |Concat(rows)| == |rows| * w
  {
    var n := |rows|;
    if n > 0 {
      ConcatLength(rows[..n - 1], w);
      assert (n - 1) * w + w == n * w;
    }
  }

  /** In rows of equal width `w`, element `k` of row `i` sits at index
      `i * w + k` of the concatenation. */
  lemma {:induction false} ConcatAt<T>(rows: seq<seq<T>>, w: nat, i: nat, k: nat)
    requires forall j :: 0 <= j < |rows| ==> |rows[j]| == w
    requires i < |rows| && k < w
    ensures i * w + k < |Concat(rows)| && Concat(rows)[i * w + k] == rows[i][k]
  {
    var n := |rows|;
    var init := rows[..n - 1];
    ConcatLength(init, w);
    if i < n - 1 {
      ConcatAt(init, w, i, k);
      MulStrict(i, n - 1, w, k);
    } else {
      assert i * w + k == |Concat(init)| + k;
    }
  }

  lemma MulStrict(i: nat, m: nat, f: nat, k: nat)
    requires i < m && k < f
    ensures i * f + k < m * f
  {
    assert (i + 1) * f <= m * f;
  }

  /** `a` starts and `c` ends `a + b + c`. */
  lemma FrontAndBack<T>(a: seq<T>, b: seq<T>, c: seq<T>)
    ensures ((a + b) + c)[..|a|] == a
    ensures ((a + b) + c)[|a| + |b|..] == c
  {
  }

  lemma AppendAssoc<T>(a: seq<T>, b: seq<T>, c: seq<T>)
    ensures (a + b) + c == a + (b + c)
  {
  }
}

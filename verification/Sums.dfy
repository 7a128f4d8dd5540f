/** Sums of an integer measure over the rows of a table, as the SQL `sum(...)` aggregates compute them. */
module Sums {

  function SumBy<T>(rows: seq<T>, measure: T -> int): int {
    if rows == [] then 0
    else SumBy(rows[..|rows| - 1], measure) + measure(rows[|rows| - 1])
  }

  lemma SumAppend<T>(rows: seq<T>, row: T, measure: T -> int)
    ensures SumBy(rows + [row], measure) == SumBy(rows, measure) + measure(row)
  {
  }

  lemma {:induction false} SumUpdate<T>(rows: seq<T>, i: nat, row: T, measure: T -> int)
    requires i < |rows|
    ensures SumBy(rows[i := row], measure) == SumBy(rows, measure) - measure(rows[i]) + measure(row)
  {
    var n := |rows| - 1;
    if i < n {
      assert rows[i := row][..n] == rows[..n][i := row];
      SumUpdate(rows[..n], i, row, measure);
    } else {
      assert rows[i := row][..n] == rows[..n];
    }
  }

  /** Two measures over two tables compare as their rows do. */
  lemma {:induction false} SumCompare<S, T>(rows: seq<S>, f: S -> int, rows': seq<T>, g: T -> int)
    requires |rows| == |rows'|
    requires forall i :: 0 <= i < |rows| ==> f(rows[i]) <= g(rows'[i])
    ensures SumBy(rows, f) <= SumBy(rows', g)
  {
    if rows == [] {
    } else {
      var n := |rows| - 1;
      SumCompare(rows[..n], f, rows'[..n], g);
    }
  }

  /** A sum in which at most the row at `k` counts. */
  lemma {:induction false} SumSingle<T>(rows: seq<T>, k: nat, measure: T -> int)
    requires k < |rows|
    requires forall i :: 0 <= i < |rows| && i != k ==> measure(rows[i]) == 0
    ensures SumBy(rows, measure) == measure(rows[k])
  {
    var n := |rows| - 1;
    if k < n {
      SumSingle(rows[..n], k, measure);
    } else {
      SumNothing(rows[..n], measure);
    }
  }

  lemma {:induction false} SumNothing<T>(rows: seq<T>, measure: T -> int)
    requires forall i :: 0 <= i < |rows| ==> measure(rows[i]) == 0
    ensures SumBy(rows, measure) == 0
  {
    if rows == [] {
    } else {
      SumNothing(rows[..|rows| - 1], measure);
    }
  }

  lemma {:induction false} SumAtLeast<T>(rows: seq<T>, k: nat, measure: T -> int)
    requires k < |rows|
    requires forall i :: 0 <= i < |rows| ==> measure(rows[i]) >= 0
    ensures SumBy(rows, measure) >= measure(rows[k])
  {
    var n := |rows| - 1;
    if k < n {
      SumAtLeast(rows[..n], k, measure);
    } else if n > 0 {
      SumAtLeast(rows[..n], 0, measure);
    }
  }

  lemma {:induction false} SumAdd<T>(rows: seq<T>, f: T -> int, g: T -> int, h: T -> int)
    requires forall i :: 0 <= i < |rows| ==> h(rows[i]) == f(rows[i]) + g(rows[i])
    ensures SumBy(rows, h) == SumBy(rows, f) + SumBy(rows, g)
  {
    if rows == [] {
    } else {
      SumAdd(rows[..|rows| - 1], f, g, h);
    }
  }

  lemma {:induction false} SumConcat<T>(a: seq<T>, b: seq<T>, measure: T -> int)
    ensures SumBy(a + b, measure) == SumBy(a, measure) + SumBy(b, measure)
  {
    if b == [] {
      assert a + b == a;
    } else {
      var n := |b| - 1;
      assert a + b == (a + b[..n]) + [b[n]];
      SumConcat(a, b[..n], measure);
      SumAppend(a + b[..n], b[n], measure);
    }
  }
}

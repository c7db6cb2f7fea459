/**
 * How `createStats` cuts the parsed rows into `saveAll` calls.
 *
 * The first data row is added to the batch before the loop and without a size test;
 * every later row is added and then the batch is flushed when its size equals the
 * configured batch size. With a batch size of at least 2 this is plain chunking.
 * With a batch size of 0 or 1 the equality test can never fire once the first row
 * is in the batch, so nothing is flushed inside the loop.
 */
module Batching {

  /** The concatenation of a sequence of batches. */
  function Flatten<T>(bs: seq<seq<T>>): (r: seq<T>)
  {
    if bs == [] then [] else bs[0] + Flatten(bs[1..])
  }

  lemma {:induction false} FlattenAppend<T>(bs: seq<seq<T>>, b: seq<T>)
    ensures Flatten(bs + [b]) == Flatten(bs) + b
  {
    if bs == [] {
      assert bs + [b] == [b];
    } else {
      assert (bs + [b])[1..] == bs[1..] + [b];
      FlattenAppend(bs[1..], b);
    }
  }

  /** The batches flushed inside the loop, for the rows `es` added so far. */
  function LoopBatches<T>(es: seq<T>, n: nat): seq<seq<T>>
    decreases |es|
  {
    if n < 2 || |es| < n then [] else [es[..n]] + LoopBatches(es[n..], n)
  }

  /** What is left in the batch after the rows `es` have been added. */
  function Pending<T>(es: seq<T>, n: nat): seq<T>
    decreases |es|
  {
    if n < 2 || |es| < n then es else Pending(es[n..], n)
  }

  /** Every `saveAll` of a run that reaches the end of the file: the in-loop flushes, then the remainder if any. */
  function Batches<T>(es: seq<T>, n: nat): seq<seq<T>>
  {
    var rest := Pending(es, n);
    LoopBatches(es, n) + (if rest == [] then [] else [rest])
  }

  /** The in-loop flushes followed by the pending batch are the rows, in order. */
  lemma {:induction false} LoopBatchesThenPending<T>(es: seq<T>, n: nat)
    ensures Flatten(LoopBatches(es, n)) + Pending(es, n) == es
    decreases |es|
  {
    if n < 2 || |es| < n {
    } else {
      LoopBatchesThenPending(es[n..], n);
      assert es == es[..n] + es[n..];
    }
  }

  /** What the loop has flushed is a prefix of the rows added. */
  lemma LoopBatchesArePrefix<T>(es: seq<T>, n: nat)
    ensures |Flatten(LoopBatches(es, n))| <= |es|
    ensures forall j :: 0 <= j < |Flatten(LoopBatches(es, n))| ==> Flatten(LoopBatches(es, n))[j] == es[j]
  {
    LoopBatchesThenPending(es, n);
  }

  /** Every in-loop flush holds exactly `n` rows, and the pending batch holds fewer. */
  lemma {:induction false} LoopBatchesAreFull<T>(es: seq<T>, n: nat)
    ensures forall i :: 0 <= i < |LoopBatches(es, n)| ==> |LoopBatches(es, n)[i]| == n
    ensures n >= 2 ==> |Pending(es, n)| < n
    ensures n >= 2 ==> |LoopBatches(es, n)| == |es| / n
    decreases |es|
  {
    if n < 2 || |es| < n {
    } else {
      LoopBatchesAreFull(es[n..], n);
      DivStep(|es| - n, n);
    }
  }

  /** Nothing is flushed inside the loop when the batch size is below 2. */
  lemma NoLoopFlushBelowTwo<T>(es: seq<T>, n: nat)
    requires n < 2
    ensures LoopBatches(es, n) == [] && Pending(es, n) == es
  {
  }

  /** Euclidean division is determined by any quotient and remainder pair. */
  lemma DivUnique(a: int, n: int, q: int, r: int)
    requires n > 0 && 0 <= r < n && a == q * n + r
    ensures a / n == q
  {
    var q0, r0 := a / n, a % n;
    assert (q - q0) * n == r0 - r by {
      assert q * n - q0 * n == (q - q0) * n;
    }
    if q > q0 {
      MulAtLeast(q - q0, n);
    } else if q < q0 {
      MulAtLeast(q0 - q, n);
    }
  }

  lemma MulAtLeast(d: int, n: int)
    requires d >= 1 && n > 0
    ensures d * n >= n
  {
    assert d * n == (d - 1) * n + n;
  }

  lemma DivStep(a: nat, n: nat)
    requires n > 0
    ensures (a + n) / n == a / n + 1
  {
    var q, r := a / n, a % n;
    assert a + n == (q + 1) * n + r;
    DivUnique(a + n, n, q + 1, r);
  }

  /** The batches of a complete run are the rows, in order. */
  lemma BatchesFlatten<T>(es: seq<T>, n: nat)
    ensures Flatten(Batches(es, n)) == es
  {
    var rest := Pending(es, n);
    LoopBatchesThenPending(es, n);
    if rest == [] {
      assert LoopBatches(es, n) + [] == LoopBatches(es, n);
    } else {
      FlattenAppend(LoopBatches(es, n), rest);
    }
  }

  /**
   * Shape of a complete run with batch size at least 2: no batch is empty, every batch
   * but the last holds exactly `n` rows, the last holds between 1 and `n`, and there
   * are ceil(|es| / n) of them.
   */
  lemma BatchesShape<T>(es: seq<T>, n: nat)
    requires n >= 2
    ensures |Batches(es, n)| == (|es| + n - 1) / n
    ensures forall i :: 0 <= i < |Batches(es, n)| ==> 1 <= |Batches(es, n)[i]| <= n
    ensures forall i :: 0 <= i < |Batches(es, n)| - 1 ==> |Batches(es, n)[i]| == n
  {
    LoopBatchesAreFull(es, n);
    LoopBatchesThenPending(es, n);
    var full := LoopBatches(es, n);
    var rest := Pending(es, n);
    FullFlattenLength(full, n);
    CeilingCount(|es|, n, |full|, |rest|);
  }

  /** Splitting m into q full chunks of n and a remainder r gives ceil(m / n) chunks. */
  lemma CeilingCount(m: nat, n: nat, q: nat, r: nat)
    requires n >= 2 && r < n && m == q * n + r
    ensures (m + n - 1) / n == q + (if r == 0 then 0 else 1)
  {
    if r == 0 {
      DivUnique(m + n - 1, n, q, n - 1);
    } else {
      assert m + n - 1 == (q + 1) * n + (r - 1);
      DivUnique(m + n - 1, n, q + 1, r - 1);
    }
  }

  /** A sequence of `k` batches of `n` rows each holds `k * n` rows. */
  lemma {:induction false} FullFlattenLength<T>(bs: seq<seq<T>>, n: nat)
    requires forall i :: 0 <= i < |bs| ==> |bs[i]| == n
    ensures |Flatten(bs)| == |bs| * n
  {
    if bs != [] {
      FullFlattenLength(bs[1..], n);
      assert |bs| * n == (|bs| - 1) * n + n;
    }
  }

  /** With batch size below 2 a complete, non-empty run makes exactly one `saveAll`, of every row. */
  lemma BatchesBelowTwo<T>(es: seq<T>, n: nat)
    requires n < 2 && es != []
    ensures Batches(es, n) == [es]
  {
  }

  /** Adding one row to a non-empty batch flushes exactly when the batch reaches `n`. */
  lemma {:induction false} AddRow<T>(es: seq<T>, e: T, n: nat)
    requires es != []
    ensures var b := Pending(es, n) + [e];
      && LoopBatches(es + [e], n) == LoopBatches(es, n) + (if |b| == n then [b] else [])
      && Pending(es + [e], n) == (if |b| == n then [] else b)
    decreases |es|
  {
    if n < 2 {
    } else if |es| < n {
      if |es| + 1 == n {
        assert (es + [e])[n..] == [];
        assert (es + [e])[..n] == es + [e];
      }
    } else {
      assert (es + [e])[..n] == es[..n];
      assert (es + [e])[n..] == es[n..] + [e];
      if es[n..] == [] {
        assert es[..n] == es;
      } else {
        AddRow(es[n..], e, n);
      }
    }
  }
}

/** The shape shared by the row parsers: read each row (knowing its
    position) into at most one item, keep the items in row order, then drop
    those a final test rejects. Stated once over any row and item type, so
    the facts about which rows reach the output are proved once. */
module Gather {
  import opened Base

  /** The items read from `rows`, in row order. */
  function Collect<R, T>(rows: seq<R>, read: (R, nat) -> Option<T>): (es: seq<T>)
    ensures |es| <= |rows|
    decreases |rows|
  {
    if rows == [] then []
    else
      var n := |rows| - 1;
      Collect(rows[..n], read) +
        match read(rows[n], n)
        case None => []
        case Some(e) => [e]
  }

  /** Every collected item is what some row reads to. */
  lemma {:induction false} CollectMember<R, T>(rows: seq<R>, read: (R, nat) -> Option<T>, x: T)
    requires x in Collect(rows, read)
    ensures exists i :: 0 <= i < |rows| && read(rows[i], i) == Some(x)
    decreases |rows|
  {
    var n := |rows| - 1;
    var pre := rows[..n];
    if x in Collect(pre, read) {
      CollectMember(pre, read, x);
      var i :| 0 <= i < |pre| && read(pre[i], i) == Some(x);
      assert rows[i] == pre[i];
    } else {
      assert read(rows[n], n) == Some(x);
    }
  }

  /** Rows that all read to nothing collect nothing. */
  lemma {:induction false} CollectNothing<R, T>(rows: seq<R>, read: (R, nat) -> Option<T>)
    requires forall i :: 0 <= i < |rows| ==> read(rows[i], i).None?
    ensures Collect(rows, read) == []
    decreases |rows|
  {
    if rows != [] {
      var n := |rows| - 1;
      var pre := rows[..n];
      forall i | 0 <= i < |pre|
        ensures read(pre[i], i).None?
      {
        assert pre[i] == rows[i];
      }
      CollectNothing(pre, read);
    }
  }

  /** `xs.filter(keep)`. */
  function Filter<T>(xs: seq<T>, keep: T -> bool): (r: seq<T>)
    ensures |r| <= |xs|
    ensures forall k :: 0 <= k < |r| ==> keep(r[k]) && r[k] in xs
    decreases |xs|
  {
    if xs == [] then []
    else if keep(xs[0]) then [xs[0]] + Filter(xs[1..], keep)
    else Filter(xs[1..], keep)
  }

  /** The test `x => x !== v`. */
  function Except<T(==)>(v: T): T -> bool {
    x => x != v
  }

  lemma {:induction false} FilterConcat<T>(a: seq<T>, b: seq<T>, keep: T -> bool)
    ensures Filter(a + b, keep) == Filter(a, keep) + Filter(b, keep)
    decreases |a|
  {
    if a == [] {
      assert a + b == b;
    } else {
      assert (a + b)[0] == a[0];
      assert (a + b)[1..] == a[1..] + b;
      FilterConcat(a[1..], b, keep);
    }
  }

  /** Every element the test accepts is kept. */
  lemma {:induction false} FilterKeeps<T>(xs: seq<T>, keep: T -> bool, x: T)
    requires x in xs && keep(x)
    ensures x in Filter(xs, keep)
    decreases |xs|
  {
    if xs[0] != x {
      FilterKeeps(xs[1..], keep, x);
    }
  }

  /** An element the test rejects is not kept. */
  lemma {:induction false} FilterDrops<T>(xs: seq<T>, keep: T -> bool, x: T)
    requires x in xs && !keep(x)
    ensures x !in Filter(xs, keep) && |Filter(xs, keep)| < |xs|
    decreases |xs|
  {
    if xs[0] != x {
      FilterDrops(xs[1..], keep, x);
    }
  }

  /** A test every element passes keeps the whole sequence. */
  lemma {:induction false} FilterAll<T>(xs: seq<T>, keep: T -> bool)
    requires forall k :: 0 <= k < |xs| ==> keep(xs[k])
    ensures Filter(xs, keep) == xs
    decreases |xs|
  {
    if xs != [] {
      assert keep(xs[0]);
      forall k | 0 <= k < |xs[1..]|
        ensures keep(xs[1..][k])
      {
        assert xs[1..][k] == xs[k + 1];
      }
      FilterAll(xs[1..], keep);
    }
  }

  /** The filtered sequence is a subsequence of the input. */
  lemma {:induction false} FilterIsSubsequence<T>(xs: seq<T>, keep: T -> bool)
    ensures IsSubsequence(Filter(xs, keep), xs)
    decreases |xs|
  {
    if xs != [] {
      FilterIsSubsequence(xs[1..], keep);
      if keep(xs[0]) {
        assert Filter(xs, keep) == [xs[0]] + Filter(xs[1..], keep);
        assert Filter(xs, keep)[1..] == Filter(xs[1..], keep);
      }
    }
  }

  /** Row `i` yields an item the final test accepts. */
  predicate Kept<R, T>(rows: seq<R>, i: nat, read: (R, nat) -> Option<T>, keep: T -> bool)
    requires i < |rows|
  {
    read(rows[i], i).Some? && keep(read(rows[i], i).value)
  }

  /** The positions of the rows that reach the output, ascending. */
  function SourceRows<R, T>(rows: seq<R>, read: (R, nat) -> Option<T>, keep: T -> bool): (idx: seq<nat>)
    ensures forall k :: 0 <= k < |idx| ==> idx[k] < |rows|
    decreases |rows|
  {
    if rows == [] then []
    else
      var n := |rows| - 1;
      SourceRows(rows[..n], read, keep) + (if Kept(rows, n, read, keep) then [n] else [])
  }

  /** The k-th output item is what the k-th kept row reads to. */
  lemma {:induction false} CollectSpec<R, T>(rows: seq<R>, read: (R, nat) -> Option<T>, keep: T -> bool)
    ensures var out := Filter(Collect(rows, read), keep);
      var idx := SourceRows(rows, read, keep);
      && |out| == |idx|
      && (forall k :: 0 <= k < |idx| ==> read(rows[idx[k]], idx[k]) == Some(out[k]))
    decreases |rows|
  {
    if rows != [] {
      var n := |rows| - 1;
      var pre := rows[..n];
      CollectSpec(pre, read, keep);
      var last: seq<T> := match read(rows[n], n) case None => [] case Some(e) => [e];
      FilterConcat(Collect(pre, read), last, keep);
      var idxPre := SourceRows(pre, read, keep);
      forall k | 0 <= k < |idxPre|
        ensures rows[idxPre[k]] == pre[idxPre[k]]
      {
      }
    }
  }

  /** The positions of the kept rows strictly increase. */
  lemma {:induction false} SourceRowsIncreasing<R, T>(rows: seq<R>, read: (R, nat) -> Option<T>, keep: T -> bool)
    ensures forall k, l :: 0 <= k < l < |SourceRows(rows, read, keep)| ==>
      SourceRows(rows, read, keep)[k] < SourceRows(rows, read, keep)[l]
    decreases |rows|
  {
    if rows != [] {
      var n := |rows| - 1;
      SourceRowsIncreasing(rows[..n], read, keep);
      var idxPre := SourceRows(rows[..n], read, keep);
      var idx := SourceRows(rows, read, keep);
      assert idx == idxPre + (if Kept(rows, n, read, keep) then [n] else []);
      forall k, l | 0 <= k < l < |idx|
        ensures idx[k] < idx[l]
      {
        assert idx[k] == idxPre[k] && idxPre[k] < n;
        if l < |idxPre| {
          assert idx[l] == idxPre[l];
        }
      }
    }
  }

  /** Every kept row is represented. */
  lemma {:induction false} SourceRowsComplete<R, T>(rows: seq<R>, read: (R, nat) -> Option<T>, keep: T -> bool)
    ensures forall i :: 0 <= i < |rows| && Kept(rows, i, read, keep) ==> i in SourceRows(rows, read, keep)
    decreases |rows|
  {
    if rows != [] {
      var n := |rows| - 1;
      var pre := rows[..n];
      SourceRowsComplete(pre, read, keep);
      forall i | 0 <= i < n && Kept(rows, i, read, keep)
        ensures i in SourceRows(pre, read, keep)
      {
        assert rows[i] == pre[i];
        assert Kept(pre, i, read, keep);
      }
    }
  }

  /** A row is represented exactly when it is kept. */
  lemma SourceRowsExact<R, T>(rows: seq<R>, read: (R, nat) -> Option<T>, keep: T -> bool, i: nat)
    requires i < |rows|
    ensures i in SourceRows(rows, read, keep) <==> Kept(rows, i, read, keep)
  {
    SourceRowsComplete(rows, read, keep);
    SourceRowsSound(rows, read, keep);
    if i in SourceRows(rows, read, keep) {
      var k :| 0 <= k < |SourceRows(rows, read, keep)| && SourceRows(rows, read, keep)[k] == i;
    }
  }

  /** Only kept rows are represented. */
  lemma {:induction false} SourceRowsSound<R, T>(rows: seq<R>, read: (R, nat) -> Option<T>, keep: T -> bool)
    ensures forall k :: 0 <= k < |SourceRows(rows, read, keep)| ==>
      Kept(rows, SourceRows(rows, read, keep)[k], read, keep)
    decreases |rows|
  {
    if rows != [] {
      var n := |rows| - 1;
      var pre := rows[..n];
      SourceRowsSound(pre, read, keep);
      var idxPre := SourceRows(pre, read, keep);
      var idx := SourceRows(rows, read, keep);
      assert idx == idxPre + (if Kept(rows, n, read, keep) then [n] else []);
      forall k | 0 <= k < |idx|
        ensures Kept(rows, idx[k], read, keep)
      {
        if k < |idxPre| {
          assert idx[k] == idxPre[k];
          assert rows[idxPre[k]] == pre[idxPre[k]];
          assert Kept(pre, idxPre[k], read, keep);
        }
      }
    }
  }
}

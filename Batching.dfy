/**
 * The fixed-capacity batcher shared by the import and connect scripts: records are
 * pushed one at a time, a batch is flushed as soon as it holds `cap` records, and a
 * last, partial batch is flushed at the end of the input if it is not empty.
 */
module Batching {

  /** All batches laid end to end. */
  function Flatten<T>(bs: seq<seq<T>>): seq<T> {
    if bs == [] then [] else bs[0] + Flatten(bs[1..])
  }

  /** The batches the batcher flushes for input `xs`, in order. */
  function Chunks<T>(xs: seq<T>, cap: nat): seq<seq<T>>
    requires cap > 0
    decreases |xs|
  {
    if xs == [] then []
    else if |xs| < cap then [xs]
    else [xs[..cap]] + Chunks(xs[cap..], cap)
  }

  lemma WholePrefix<T>(xs: seq<T>)
    ensures xs[..|xs|] == xs
  {
  }

  lemma DropAppended<T>(xs: seq<T>, x: T)
    ensures (xs + [x])[..|xs|] == xs
  {
  }

  lemma {:induction false} FlattenAppend<T>(bs: seq<seq<T>>, b: seq<T>)
    ensures Flatten(bs + [b]) == Flatten(bs) + b
  {
    if bs != [] {
      assert (bs + [b])[1..] == bs[1..] + [b];
      FlattenAppend(bs[1..], b);
    } else {
      assert Flatten([b]) == b + Flatten([]);
    }
  }

  /** No record is lost, duplicated or reordered by batching. */
  lemma {:induction false} FlattenChunks<T>(xs: seq<T>, cap: nat)
    requires cap > 0
    ensures Flatten(Chunks(xs, cap)) == xs
    decreases |xs|
  {
    if |xs| >= cap {
      var cs := Chunks(xs, cap);
      FlattenChunks(xs[cap..], cap);
      assert cs[1..] == Chunks(xs[cap..], cap);
      assert xs[..cap] + xs[cap..] == xs;
    } else if xs != [] {
      assert Flatten([xs]) == xs + Flatten([]);
    }
  }

  /**
   * For an input of K records and capacity C there are K / C full batches, then one
   * batch of K % C records exactly when K % C > 0; every batch is non-empty.
   */
  lemma {:induction false} ChunkSizes<T>(xs: seq<T>, cap: nat)
    requires cap > 0
    ensures |Chunks(xs, cap)| == |xs| / cap + (if |xs| % cap == 0 then 0 else 1)
    ensures forall i :: 0 <= i < |Chunks(xs, cap)| ==>
              |Chunks(xs, cap)[i]| == (if i < |xs| / cap then cap else |xs| % cap)
    ensures forall i :: 0 <= i < |Chunks(xs, cap)| ==> |Chunks(xs, cap)[i]| > 0
    decreases |xs|
  {
    var n := |xs|;
    if n >= cap {
      var rest := xs[cap..];
      ChunkSizes(rest, cap);
      DivModStep(n, cap);
      var cs := Chunks(xs, cap);
      assert cs == [xs[..cap]] + Chunks(rest, cap);
      forall i | 0 <= i < |cs|
        ensures |cs[i]| == (if i < n / cap then cap else n % cap)
      {
        if i > 0 {
          assert cs[i] == Chunks(rest, cap)[i - 1];
        }
      }
    } else {
      assert n / cap == 0 && n % cap == n by {
        DivModSmall(n, cap);
      }
    }
  }

  lemma {:induction false} DivModSmall(n: nat, cap: nat)
    requires 0 <= n < cap
    ensures n / cap == 0 && n % cap == n
  {
  }

  lemma {:induction false} DivModStep(n: nat, cap: nat)
    requires 0 < cap <= n
    ensures (n - cap) / cap == n / cap - 1 && (n - cap) % cap == n % cap
  {
    var q, r := (n - cap) / cap, (n - cap) % cap;
    assert n - cap == q * cap + r && 0 <= r < cap;
    assert n == (q + 1) * cap + r;
    DivModUnique(n, cap, q + 1, r);
  }

  lemma {:induction false} DivModUnique(n: nat, cap: nat, q: int, r: int)
    requires 0 < cap && n == q * cap + r && 0 <= r < cap
    ensures n / cap == q && n % cap == r
  {
    var q0, r0 := n / cap, n % cap;
    assert (q - q0) * cap == r0 - r by {
      assert q0 * cap + r0 == q * cap + r;
      assert (q - q0) * cap == q * cap - q0 * cap;
    }
    if q > q0 {
      MulAtLeast(q - q0, cap);
    } else if q < q0 {
      MulAtLeast(q0 - q, cap);
    }
  }

  lemma {:induction false} MulAtLeast(a: int, b: nat)
    requires a >= 1
    ensures a * b >= b
  {
  }

  /**
   * What the batcher's loop maintains: full batches `done` have been flushed and
   * `pending` holds fewer than `cap` records. Flushing `pending` if it is not empty
   * then yields exactly the chunks of everything seen.
   */
  lemma {:induction false} ChunksOfFlushed<T>(done: seq<seq<T>>, pending: seq<T>, cap: nat)
    requires cap > 0
    requires forall k :: 0 <= k < |done| ==> |done[k]| == cap
    requires |pending| < cap
    ensures Chunks(Flatten(done) + pending, cap) == done + (if pending == [] then [] else [pending])
  {
    if done == [] {
      assert Flatten(done) + pending == pending;
    } else {
      var xs := Flatten(done) + pending;
      ChunksOfFlushed(done[1..], pending, cap);
      assert xs == done[0] + (Flatten(done[1..]) + pending);
      assert xs[..cap] == done[0];
      assert xs[cap..] == Flatten(done[1..]) + pending;
      assert done == [done[0]] + done[1..];
    }
  }
}

/** Which worker a raw message goes to. */
module Sharding {
  import opened Machine

  /** The 32-bit computation at start-up: divide, and round up if anything is left over. */
  method SymnumOfWorker(lobnum: uint32, workers: uint32) returns (symnum: uint32)
    requires workers > 0
    ensures IsCeiling(lobnum, workers, symnum)
  {
    symnum := lobnum / workers;
    DivisionBounds(lobnum, workers);
    forall n: nat | lobnum <= n * workers
      ensures if symnum * workers < lobnum then symnum + 1 <= n else symnum <= n
    {
      LeastShare(lobnum, workers, n);
    }
    if ToUint32(symnum * workers) < lobnum {
      symnum := ToUint32(symnum + 1);
    }
  }

  /** The least share with which all symbols fit on the workers. */
  ghost predicate IsCeiling(lobnum: nat, workers: nat, symnum: nat) {
    lobnum <= symnum * workers && forall n: nat :: lobnum <= n * workers ==> symnum <= n
  }

  lemma QuotientBounds(x: nat, k: nat, q: int, r: int)
    requires x == q * k + r && 0 <= r < k
    ensures 0 <= q <= x && q * k <= x < (q + 1) * k
  {
    assert (q + 1) * k == q * k + k;
    if q < 0 { Scale(q, -1, k); } else { Scale(1, k, q); }
  }

  lemma DivisionBounds(x: nat, k: nat)
    requires k > 0
    ensures var q := x / k;
            0 <= q <= x && q * k <= x < (q + 1) * k
  {
    DivisionLaw(x, k);
    QuotientBounds(x, k, x / k, x % k);
  }

  lemma DivisionLaw(x: nat, k: nat)
    requires k > 0
    ensures x == x / k * k + x % k
  {
  }

  lemma LeastShare(lobnum: nat, workers: nat, n: nat)
    requires workers > 0 && lobnum <= n * workers
    ensures if lobnum / workers * workers < lobnum then lobnum / workers + 1 <= n else lobnum / workers <= n
  {
    var q := lobnum / workers;
    DivisionBounds(lobnum, workers);
    assert (n + 1) * workers == n * workers + workers;
    if n < q { Scale(n + 1, q, workers); }
  }

  lemma Scale(x: int, y: int, k: nat)
    requires x <= y
    ensures x * k <= y * k
  {
  }

  /** `onFeedRawData`: the worker of a routing key, none if the index is past the last worker. */
  datatype Route = Dropped | ToWorker(index: nat)

  function RouteOf(key: uint32, symnum: uint32, workers: uint32): Route
    requires symnum > 0
  {
    if key / symnum >= workers then Dropped else ToWorker(key / symnum)
  }

  /** Worker `w` owns the contiguous keys from `w * symnum` up to the next worker's. */
  lemma OwnsRange(key: uint32, symnum: uint32, workers: uint32, w: nat)
    requires symnum > 0
    ensures RouteOf(key, symnum, workers) == ToWorker(w) <==> w < workers && w * symnum <= key < (w + 1) * symnum
  {
    DivisionBounds(key, symnum);
    var q := key / symnum;
    if w < q { Scale(w + 1, q, symnum); }
    if q < w { Scale(q + 1, w, symnum); }
  }

  /** No symbol below the configured number is ever dropped. */
  lemma NothingDropped(lobnum: uint32, workers: uint32, symnum: uint32, key: uint32)
    requires lobnum > 0 && workers > 0 && IsCeiling(lobnum, workers, symnum)
    ensures symnum > 0
    ensures key < lobnum ==> RouteOf(key, symnum, workers).ToWorker?
    ensures RouteOf(key, symnum, workers).Dropped? <==> key >= symnum * workers
  {
    assert 0 * workers == 0;
    DivisionBounds(key, symnum);
    var q := key / symnum;
    if q >= workers { Scale(workers, q, symnum); } else { Scale(q + 1, workers, symnum); }
  }

  /** With one key per worker fewer, some symbol would be dropped. */
  lemma Tight(lobnum: uint32, workers: uint32, symnum: uint32, fewer: uint32)
    requires lobnum > 0 && workers > 0 && IsCeiling(lobnum, workers, symnum)
    requires 0 < fewer < symnum
    ensures RouteOf(lobnum - 1, fewer, workers).Dropped?
  {
    assert !(lobnum <= fewer * workers);
    DivisionBounds(lobnum - 1, fewer);
    var q := (lobnum - 1) / fewer;
    if q < workers { Scale(q + 1, workers, fewer); }
  }
}

/** The chunked probe loop shared by `validateWithConcurrency` and
    `batchCheckFeeds`: the URLs are taken in consecutive slices of `c`, every
    probe of a slice is started, and the next slice starts only once all of
    them have finished. Each completion stores its result under its URL and
    reports `(completed, total)`.

    Which probe of a slice finishes first is decided by the network; it is
    the parameter `order`, the input positions in the order they are
    recorded. */
module Batches {
  import opened Wrappers
  import opened Seqs

  /** A probe being started, or a result being recorded with the progress
      report that follows it. */
  datatype Event = Start(index: nat) | Finish(index: nat, completed: nat, total: nat)

  predicate IsStart(e: Event) {
    e.Start?
  }

  predicate IsFinish(e: Event) {
    e.Finish?
  }

  /** The positions `0..n-1` in input order. */
  function Range(n: nat): (r: seq<nat>)
    ensures |r| == n
    ensures forall k :: 0 <= k < n ==> r[k] == k
  {
    seq(n, k requires 0 <= k < n => k)
  }

  /** `order` is a rearrangement of `0..n-1` in which the `j`-th recorded
      result belongs to the same slice as position `j`. */
  predicate RespectsChunks(order: seq<nat>, n: nat, c: nat) {
    && c >= 1
    && |order| == n
    && multiset(order) == multiset(Range(n))
    && forall j :: 0 <= j < n ==> order[j] < n && SliceOf(order[j], c) == SliceOf(j, c)
  }

  /** Starting the probes `lo..hi-1`, in input order (`batch.map`). */
  function Starts(lo: nat, hi: nat): (r: seq<Event>)
    requires lo <= hi
    ensures |r| == hi - lo
  {
    seq(hi - lo, k requires 0 <= k < hi - lo => Start(lo + k))
  }

  /** Recording the completions `lo..hi-1` of the completion order. */
  function Finishes(lo: nat, hi: nat, order: seq<nat>, total: nat): (r: seq<Event>)
    requires lo <= hi <= |order|
    ensures |r| == hi - lo
  {
    seq(hi - lo, k requires 0 <= k < hi - lo => Finish(order[lo + k], lo + k + 1, total))
  }

  function Min(a: nat, b: nat): nat {
    if a < b then a else b
  }

  /** The loop from slice start `lo` on: one iteration per slice. */
  function Trace(order: seq<nat>, c: nat, lo: nat): seq<Event>
    requires c >= 1 && lo <= |order|
    decreases |order| - lo
  {
    if lo == |order| then []
    else
      var hi := Min(lo + c, |order|);
      Starts(lo, hi) + Finishes(lo, hi, order, |order|) + Trace(order, c, hi)
  }

  /** The whole loop; `None` when it never ends (a limit below one with at
      least one URL, since `i += c` then never reaches the end). */
  function Schedule(n: nat, c: int, order: seq<nat>): (r: Option<seq<Event>>)
    requires c >= 1 ==> |order| == n
    ensures r.None? <==> c < 1 && n > 0
    ensures c < 1 && n == 0 ==> r == Some([])
  {
    if c < 1 then (if n == 0 then Some([]) else None)
    else Some(Trace(order, c, 0))
  }

  lemma FilterStarts(lo: nat, hi: nat)
    requires lo <= hi
    ensures Filter(Starts(lo, hi), IsStart) == Starts(lo, hi)
    ensures Filter(Starts(lo, hi), IsFinish) == []
  {
    FilterAll(Starts(lo, hi), IsStart);
    FilterNone(Starts(lo, hi), IsFinish);
  }

  lemma FilterFinishes(lo: nat, hi: nat, order: seq<nat>, total: nat)
    requires lo <= hi <= |order|
    ensures Filter(Finishes(lo, hi, order, total), IsFinish) == Finishes(lo, hi, order, total)
    ensures Filter(Finishes(lo, hi, order, total), IsStart) == []
  {
    FilterAll(Finishes(lo, hi, order, total), IsFinish);
    FilterNone(Finishes(lo, hi, order, total), IsStart);
  }

  lemma FinishesSplit(lo: nat, mid: nat, hi: nat, order: seq<nat>, total: nat)
    requires lo <= mid <= hi <= |order|
    ensures Finishes(lo, mid, order, total) + Finishes(mid, hi, order, total) == Finishes(lo, hi, order, total)
  {
  }

  lemma StartsSplit(lo: nat, mid: nat, hi: nat)
    requires lo <= mid <= hi
    ensures Starts(lo, mid) + Starts(mid, hi) == Starts(lo, hi)
  {
  }

  /** The recorded results come in completion order, with the progress
      counter running 1, 2, ... up to the total. */
  lemma {:induction false} TraceFinishes(order: seq<nat>, c: nat, lo: nat)
    requires c >= 1 && lo <= |order|
    ensures Filter(Trace(order, c, lo), IsFinish) == Finishes(lo, |order|, order, |order|)
    decreases |order| - lo
  {
    if lo < |order| {
      var hi := Min(lo + c, |order|);
      var s := Starts(lo, hi);
      var f := Finishes(lo, hi, order, |order|);
      var t := Trace(order, c, hi);
      assert Trace(order, c, lo) == s + f + t;
      TraceFinishes(order, c, hi);
      FilterAppend(s + f, t, IsFinish);
      FilterAppend(s, f, IsFinish);
      FilterStarts(lo, hi);
      FilterFinishes(lo, hi, order, |order|);
      assert Filter(s + f, IsFinish) == f;
      FinishesSplit(lo, hi, |order|, order, |order|);
    }
  }

  /** Every probe is started exactly once, in input order. */
  lemma {:induction false} TraceStarts(order: seq<nat>, c: nat, lo: nat)
    requires c >= 1 && lo <= |order|
    ensures Filter(Trace(order, c, lo), IsStart) == Starts(lo, |order|)
    decreases |order| - lo
  {
    if lo < |order| {
      var hi := Min(lo + c, |order|);
      var s := Starts(lo, hi);
      var f := Finishes(lo, hi, order, |order|);
      var t := Trace(order, c, hi);
      assert Trace(order, c, lo) == s + f + t;
      TraceStarts(order, c, hi);
      FilterAppend(s + f, t, IsStart);
      FilterAppend(s, f, IsStart);
      FilterStarts(lo, hi);
      FilterFinishes(lo, hi, order, |order|);
      assert Filter(s + f, IsStart) == s;
      StartsSplit(lo, hi, |order|);
    }
  }

  /** What `onProgress` receives over the whole run: `(1, n)`, `(2, n)`, ...,
      `(n, n)`, whatever the completion order. */
  function Progress(t: seq<Event>): seq<(nat, nat)>
    requires forall e :: e in t ==> e.Finish?
  {
    seq(|t|, k requires 0 <= k < |t| => (t[k].completed, t[k].total))
  }

  lemma ProgressCounts(order: seq<nat>, c: nat)
    requires c >= 1
    ensures var fs := Filter(Trace(order, c, 0), IsFinish);
            && (forall e :: e in fs ==> e.Finish?)
            && Progress(fs) == seq(|order|, k requires 0 <= k < |order| => (k + 1, |order|))
  {
    TraceFinishes(order, c, 0);
  }

  /** Slice number of a position: positions `0..c-1` are slice 0, the
      next `c` positions slice 1, and so on. */
  function SliceOf(x: nat, c: nat): nat
    requires c >= 1
  {
    if x < c then 0 else 1 + SliceOf(x - c, c)
  }

  /** The positions where a slice begins: 0, c, 2c, ... */
  predicate SliceStart(lo: nat, c: nat)
    requires c >= 1
  {
    lo == 0 || (lo >= c && SliceStart(lo - c, c))
  }

  lemma {:induction false} SliceWithin(x: nat, lo: nat, c: nat)
    requires c >= 1 && SliceStart(lo, c) && lo <= x < lo + c
    ensures SliceOf(x, c) == SliceOf(lo, c)
  {
    if lo > 0 {
      SliceWithin(x - c, lo - c, c);
    }
  }

  lemma {:induction false} SliceMono(x: nat, y: nat, c: nat)
    requires c >= 1 && x <= y
    ensures SliceOf(x, c) <= SliceOf(y, c)
  {
    if x >= c {
      SliceMono(x - c, y - c, c);
    }
  }

  /** Every event of the loop from `lo` on concerns a probe of the slice
      starting at `lo` or of a later one. */
  lemma {:induction false} TraceSlices(order: seq<nat>, c: nat, lo: nat)
    requires RespectsChunks(order, |order|, c)
    requires lo <= |order| && SliceStart(lo, c)
    ensures forall e :: e in Trace(order, c, lo) ==> SliceOf(e.index, c) >= SliceOf(lo, c)
    decreases |order| - lo
  {
    if lo < |order| {
      var hi := Min(lo + c, |order|);
      BlockSlice(order, c, lo, hi);
      if hi < |order| {
        assert SliceStart(hi, c) && SliceOf(hi, c) == SliceOf(lo, c) + 1;
        TraceSlices(order, c, hi);
      }
    }
  }

  /** No probe of a slice finishes after a probe of a later slice has started. */
  predicate BarrierHolds(t: seq<Event>, c: nat)
    requires c >= 1
  {
    forall q, p :: 0 <= q < p < |t| && t[q].Start? && t[p].Finish? ==> SliceOf(t[q].index, c) <= SliceOf(t[p].index, c)
  }

  /** The events of one iteration all concern the slice starting at `lo`. */
  lemma BlockSlice(order: seq<nat>, c: nat, lo: nat, hi: nat)
    requires RespectsChunks(order, |order|, c)
    requires SliceStart(lo, c) && lo <= hi <= |order| && hi <= lo + c
    ensures forall e :: e in Starts(lo, hi) + Finishes(lo, hi, order, |order|) ==> SliceOf(e.index, c) == SliceOf(lo, c)
  {
    var s := Starts(lo, hi);
    var f := Finishes(lo, hi, order, |order|);
    forall e: Event | e in s + f ensures SliceOf(e.index, c) == SliceOf(lo, c) {
      if e in s {
        var k :| 0 <= k < |s| && s[k] == e;
        SliceWithin(lo + k, lo, c);
      } else {
        var k :| 0 <= k < |f| && f[k] == e;
        SliceWithin(lo + k, lo, c);
      }
    }
  }

  /** A block of one slice followed by events of later slices keeps the barrier. */
  lemma BarrierAppend(block: seq<Event>, rest: seq<Event>, c: nat, slice: nat)
    requires c >= 1
    requires forall e :: e in block ==> SliceOf(e.index, c) == slice
    requires forall e :: e in rest ==> SliceOf(e.index, c) > slice
    requires BarrierHolds(rest, c)
    ensures BarrierHolds(block + rest, c)
  {
    var t := block + rest;
    forall q, p | 0 <= q < p < |t| && t[q].Start? && t[p].Finish?
      ensures SliceOf(t[q].index, c) <= SliceOf(t[p].index, c)
    {
      if p < |block| {
        assert t[q] in block && t[p] in block;
      } else if q < |block| {
        assert t[q] in block;
        assert t[p] == rest[p - |block|];
      } else {
        assert t[q] == rest[q - |block|] && t[p] == rest[p - |block|];
      }
    }
  }

  /** The barrier holds for the whole loop. */
  lemma {:induction false} Barrier(order: seq<nat>, c: nat, lo: nat)
    requires RespectsChunks(order, |order|, c)
    requires lo <= |order| && SliceStart(lo, c)
    ensures BarrierHolds(Trace(order, c, lo), c)
    decreases |order| - lo
  {
    if lo < |order| {
      var hi := Min(lo + c, |order|);
      var block := Starts(lo, hi) + Finishes(lo, hi, order, |order|);
      BlockSlice(order, c, lo, hi);
      if hi < |order| {
        assert SliceStart(hi, c) && SliceOf(hi, c) == SliceOf(lo, c) + 1;
        Barrier(order, c, hi);
        TraceSlices(order, c, hi);
      }
      BarrierAppend(block, Trace(order, c, hi), c, SliceOf(lo, c));
    }
  }

  /** The result map after the first `m` completions. */
  function Record<R>(urls: seq<string>, outcomes: seq<R>, order: seq<nat>, m: nat): map<string, R>
    requires |outcomes| == |urls| && m <= |order|
    requires forall j :: 0 <= j < |order| ==> order[j] < |urls|
  {
    if m == 0 then map[]
    else Record(urls, outcomes, order, m - 1)[urls[order[m - 1]] := outcomes[order[m - 1]]]
  }

  /** A URL has a result once one of its probes has completed. */
  lemma {:induction false} RecordKeys<R>(urls: seq<string>, outcomes: seq<R>, order: seq<nat>, m: nat)
    requires |outcomes| == |urls| && m <= |order|
    requires forall j :: 0 <= j < |order| ==> order[j] < |urls|
    ensures forall u :: u in Record(urls, outcomes, order, m) <==> exists j :: 0 <= j < m && urls[order[j]] == u
  {
    if m > 0 {
      RecordKeys(urls, outcomes, order, m - 1);
    }
  }

  /** The completion at position `j` is the last one for its URL among the first `m`. */
  predicate LastFor(urls: seq<string>, order: seq<nat>, m: nat, j: nat)
    requires m <= |order|
    requires forall j :: 0 <= j < |order| ==> order[j] < |urls|
  {
    j < m && forall k :: j < k < m ==> urls[order[k]] != urls[order[j]]
  }

  /** A later result for the same URL overwrites an earlier one. */
  lemma {:induction false} RecordLast<R>(urls: seq<string>, outcomes: seq<R>, order: seq<nat>, m: nat, j: nat)
    requires |outcomes| == |urls| && m <= |order|
    requires forall j :: 0 <= j < |order| ==> order[j] < |urls|
    requires LastFor(urls, order, m, j)
    ensures urls[order[j]] in Record(urls, outcomes, order, m)
    ensures Record(urls, outcomes, order, m)[urls[order[j]]] == outcomes[order[j]]
  {
    if j < m - 1 {
      RecordLast(urls, outcomes, order, m - 1, j);
    }
  }

  /** The loop itself, slice by slice, with the completions of a slice
      recorded in the order `order` gives. */
  method RunBatches<R>(urls: seq<string>, c: nat, outcomes: seq<R>, order: seq<nat>)
    returns (results: map<string, R>, trace: seq<Event>)
    requires |outcomes| == |urls|
    requires RespectsChunks(order, |urls|, c)
    ensures trace == Trace(order, c, 0)
    ensures forall u :: u in results <==> u in urls
    ensures forall j :: 0 <= j < |urls| && LastFor(urls, order, |urls|, j) ==>
      results[urls[order[j]]] == outcomes[order[j]]
  {
    var n := |urls|;
    results := map[];
    trace := [];
    var i := 0;
    while i < n
      invariant i <= n
      invariant trace + Trace(order, c, i) == Trace(order, c, 0)
      invariant results == Record(urls, outcomes, order, i)
      decreases n - i
    {
      var hi := Min(i + c, n);
      ghost var rest := Trace(order, c, hi);
      assert Trace(order, c, i) == Starts(i, hi) + Finishes(i, hi, order, n) + rest;
      var done;
      results, done := RecordSlice(urls, outcomes, order, i, hi, results);
      assert trace + Starts(i, hi) + done + rest == trace + Trace(order, c, i);
      trace := trace + Starts(i, hi) + done;
      i := hi;
    }
    RecordComplete(urls, outcomes, order, c);
  }

  /** Once every completion is recorded, each URL holds the outcome of its
      last completion. */
  lemma RecordComplete<R>(urls: seq<string>, outcomes: seq<R>, order: seq<nat>, c: nat)
    requires |outcomes| == |urls|
    requires RespectsChunks(order, |urls|, c)
    ensures forall u :: u in Record(urls, outcomes, order, |urls|) <==> u in urls
    ensures forall j :: 0 <= j < |urls| && LastFor(urls, order, |urls|, j) ==>
      Record(urls, outcomes, order, |urls|)[urls[order[j]]] == outcomes[order[j]]
  {
    var n := |urls|;
    var m := Record(urls, outcomes, order, n);
    RecordKeys(urls, outcomes, order, n);
    forall u | u in urls ensures u in m {
      var j := LastCompletion(urls, order, c, u);
    }
    forall j | 0 <= j < n && LastFor(urls, order, n, j) ensures m[urls[order[j]]] == outcomes[order[j]] {
      RecordLast(urls, outcomes, order, n, j);
    }
  }

  /** One slice's completions: `results.set(url, result)`, `completed++`,
      `onProgress(completed, total)`. */
  method RecordSlice<R>(urls: seq<string>, outcomes: seq<R>, order: seq<nat>, lo: nat, hi: nat,
                        before: map<string, R>)
    returns (results: map<string, R>, done: seq<Event>)
    requires |outcomes| == |urls| && lo <= hi <= |order|
    requires forall j :: 0 <= j < |order| ==> order[j] < |urls|
    requires before == Record(urls, outcomes, order, lo)
    ensures results == Record(urls, outcomes, order, hi)
    ensures done == Finishes(lo, hi, order, |order|)
  {
    results := before;
    done := [];
    var k := lo;
    while k < hi
      invariant lo <= k <= hi
      invariant done == Finishes(lo, k, order, |order|)
      invariant results == Record(urls, outcomes, order, k)
    {
      results := results[urls[order[k]] := outcomes[order[k]]];
      done := done + [Finish(order[k], k + 1, |order|)];
      k := k + 1;
    }
  }

  /** Every URL of the list has a last completion. */
  lemma LastCompletion(urls: seq<string>, order: seq<nat>, c: nat, u: string) returns (j: nat)
    requires RespectsChunks(order, |urls|, c)
    requires u in urls
    ensures j < |urls| && urls[order[j]] == u && LastFor(urls, order, |urls|, j)
  {
    var n := |urls|;
    var p :| 0 <= p < n && urls[p] == u;
    assert Range(n)[p] == p;
    assert p in multiset(Range(n));
    assert p in multiset(order);
    var first :| 0 <= first < n && order[first] == p;
    j := first;
    var k := first + 1;
    while k < n
      invariant j < k <= n && urls[order[j]] == u
      invariant forall i :: j < i < k ==> urls[order[i]] != u
    {
      if urls[order[k]] == u {
        j := k;
      }
      k := k + 1;
    }
  }

  /** Recording in input order (what `Promise.all` followed by `forEach`
      does) respects the slices. */
  lemma InputOrderRespectsChunks(n: nat, c: nat)
    requires c >= 1
    ensures RespectsChunks(Range(n), n, c)
  {
  }
}

/** Downloading a firmware: the loop of dm_fota_perform_sync in eng/dev_model/dm_fota.c. */
module Fota {
  import opened Text

  const RETRY_INTERVAL := 100
  const PERCENT_MAX := 100

  datatype Fetch = Failed | Data(bytes: seq<int>)

  /** What the OTA service and the platform answer: to the k-th fetch, the k-th write, the k-th reading of the clock;
      `size(k)` is the fetched size after k fetches, and `finished(k)` the answer to "is it complete" after k of them.
      The retry option may be unreadable. */
  datatype World = World(
    fetch: nat -> Fetch, written: nat -> bool, clock: nat -> nat, size: nat -> nat, finished: nat -> bool,
    fileSize: nat, retryMax: Option<int>, valid: bool)

  /** The fetched size rises with every fetch that succeeds, up to the size of the file, and then the download is complete. */
  ghost predicate Rising(w: World) {
    && w.fileSize > 0 && w.size(0) == 0
    && (forall k: nat :: w.size(k) <= w.fileSize)
    && (forall k: nat :: if w.fetch(k).Data? then w.size(k + 1) > w.size(k) else w.size(k + 1) == w.size(k))
    && (forall k: nat :: k > 0 && w.size(k) == w.fileSize ==> w.finished(k))
  }

  /** More than 50 ms pass from one fetch to the next. */
  ghost predicate Ticking(w: World) {
    w.clock(0) > 50 && forall k: nat :: w.clock(k + 1) > w.clock(k) + 50
  }

  /** The concatenation of what the first n fetches delivered. */
  function Chunks(fetch: nat -> Fetch, n: nat): seq<int> {
    if n == 0 then []
    else Chunks(fetch, n - 1) + match fetch(n - 1) case Failed => [] case Data(bytes) => bytes
  }

  datatype Report = Percent(n: int) | FetchFailed | BurnFailed | CheckFailed

  datatype Result = Done | NotFetched | NotWritten | NotValid

  lemma {:induction false} PercentOfNothing(fileSize: nat)
    requires fileSize > 0
    ensures PercentOf(0, fileSize) == 0
  {
  }

  function PercentOf(size: nat, fileSize: nat): nat
    requires fileSize > 0
  {
    size * 100 / fileSize
  }

  /** The whole percentage that was reached. */
  lemma {:induction false} PercentExact(size: nat, fileSize: nat)
    requires fileSize > 0
    ensures PercentOf(size, fileSize) * fileSize <= 100 * size < (PercentOf(size, fileSize) + 1) * fileSize
  {
    var p := PercentOf(size, fileSize);
    assert 100 * size == fileSize * p + (100 * size) % fileSize;
  }

  lemma {:induction false} PercentGrows(a: nat, b: nat, fileSize: nat)
    requires fileSize > 0 && a <= b <= fileSize
    ensures PercentOf(a, fileSize) <= PercentOf(b, fileSize) <= 100
    ensures PercentOf(b, fileSize) == 100 <==> b == fileSize
  {
    DivideGrows(a * 100, b * 100, fileSize);
    DivideGrows(b * 100, fileSize * 100, fileSize);
    assert fileSize * 100 / fileSize == 100;
    if b < fileSize {
      assert b * 100 < fileSize * 100;
      DivideBelow(b * 100, 100, fileSize);
    }
  }

  lemma {:induction false} DivideGrows(a: nat, b: nat, d: nat)
    requires d > 0 && a <= b
    ensures a / d <= b / d
  {
    var p, q := a / d, b / d;
    assert a == d * p + a % d && b == d * q + b % d;
    if p > q {
      TimesGrows(d, q + 1, p);
    }
  }

  lemma {:induction false} TimesGrows(d: nat, p: nat, q: nat)
    requires p <= q
    ensures d * p <= d * q
  {
  }

  lemma {:induction false} DivideBelow(a: nat, q: nat, d: nat)
    requires d > 0 && a < q * d
    ensures a / d < q
  {
  }

  /** Progress reports below the maximum: each at least six above the one before it, and above zero. */
  predicate Spaced(ps: seq<int>) {
    && (forall i :: 0 <= i < |ps| ==> 6 <= ps[i] < 100)
    && (forall i :: 0 < i < |ps| ==> ps[i - 1] + 6 <= ps[i])
  }

  function LastOf(ps: seq<int>): int {
    if ps == [] then 0 else ps[|ps| - 1]
  }

  lemma {:induction false} SpacedMore(ps: seq<int>, p: int)
    requires Spaced(ps) && LastOf(ps) + 6 <= p < 100
    ensures Spaced(ps + [p]) && LastOf(ps + [p]) == p
  {
  }

  lemma {:induction false} SpacedAbove(ps: seq<int>)
    requires Spaced(ps) && ps != []
    ensures 6 * |ps| <= ps[|ps| - 1]
  {
    if |ps| > 1 {
      SpacedAbove(ps[..|ps| - 1]);
    }
  }

  /** So there are at most sixteen. */
  lemma {:induction false} AtMostSixteen(ps: seq<int>)
    requires Spaced(ps)
    ensures |ps| <= 16
  {
    if ps != [] {
      SpacedAbove(ps);
    }
  }

  /** Every fetch before the m-th that delivered something was written. */
  ghost predicate AllWritten(w: World, m: nat) {
    forall k :: 0 <= k < m && w.fetch(k).Data? ==> w.written(k)
  }

  /** No fetch before the m-th completed the download. */
  ghost predicate Unfinished(w: World, m: nat) {
    forall k :: 0 <= k < m && w.fetch(k).Data? ==> !w.finished(k + 1)
  }

  /** The i-th progress below the maximum was reported in round `at[i]`, as the percentage fetched by then, more than 50 ms
      after the report before it, or after the clock was read again since, should it have gone back. */
  ghost predicate Reported(w: World, progress: seq<int>, at: seq<nat>, n: nat)
    requires w.fileSize > 0
  {
    && |at| == |progress|
    && (forall i :: 0 <= i < |at| ==>
          at[i] < n && w.fetch(at[i]).Data? && progress[i] == PercentOf(w.size(at[i] + 1), w.fileSize))
    && (forall i :: 0 < i < |at| ==> at[i - 1] < at[i] && Later(w, at[i - 1], at[i]))
  }

  ghost predicate Later(w: World, a: nat, b: nat) {
    exists j :: a <= j < b && w.fetch(j).Data? && w.clock(b) > w.clock(j) + 50
  }

  lemma {:induction false} ReportedMore(w: World, progress: seq<int>, at: seq<nat>, k: nat, p: int)
    requires w.fileSize > 0 && Reported(w, progress, at, k) && w.fetch(k).Data? && p == PercentOf(w.size(k + 1), w.fileSize)
    requires at != [] ==> Later(w, at[|at| - 1], k)
    ensures Reported(w, progress + [p], at + [k], k + 1)
  {
    hide PercentOf, Later;
  }

  lemma {:induction false} ReportedStill(w: World, progress: seq<int>, at: seq<nat>, n: nat)
    requires w.fileSize > 0 && Reported(w, progress, at, n)
    ensures Reported(w, progress, at, n + 1)
  {
    hide PercentOf, Later;
  }

  /** With a clock that does not go back, two reports below the maximum are more than 50 ms apart. */
  lemma {:induction false} ReportsApart(w: World, progress: seq<int>, at: seq<nat>, n: nat, i: nat)
    requires w.fileSize > 0 && Reported(w, progress, at, n) && 0 < i < |at|
    requires forall a, b :: 0 <= a <= b ==> w.clock(a) <= w.clock(b)
    ensures w.clock(at[i]) > w.clock(at[i - 1]) + 50
  {
    assert Later(w, at[i - 1], at[i]);
  }

  /** What is known of the reports before round n: `pre` is the round whose clock the next one is measured against. */
  ghost predicate Watched(w: World, n: nat, percentPre: int, reportPre: int, progress: seq<int>, at: seq<nat>, pre: nat)
    requires w.fileSize > 0
  {
    && Reported(w, progress, at, n) && Spaced(progress) && percentPre == LastOf(progress)
    && percentPre <= PercentOf(w.size(n), w.fileSize)
    && (at != [] ==> at[|at| - 1] <= pre < n && w.fetch(pre).Data? && reportPre == w.clock(pre))
    && (Ticking(w) ==> w.clock(n) > reportPre + 50 && PercentOf(w.size(n), w.fileSize) <= percentPre + 5)
  }

  lemma {:induction false} WatchedAtFirst(w: World)
    requires Rising(w)
    ensures Watched(w, 0, 0, 0, [], [], 0)
  {
    PercentOfNothing(w.fileSize);
  }

  /** A fetch that failed reports no progress. */
  lemma {:induction false} WatchedStill(w: World, n: nat, percentPre: int, reportPre: int, progress: seq<int>, at: seq<nat>, pre: nat)
    requires Rising(w) && w.fetch(n).Failed? && Watched(w, n, percentPre, reportPre, progress, at, pre)
    ensures Watched(w, n + 1, percentPre, reportPre, progress, at, pre)
  {
    hide PercentOf, Spaced, LastOf, Reported;
    ReportedStill(w, progress, at, n);
  }

  /** The report of one round, if one is due: below the maximum it is one more progress, at the maximum it is the last. */
  method ReportProgress(w: World, k: nat, percentPre: int, reportPre: int, progress: seq<int>, ghost at: seq<nat>, ghost pre: nat)
    returns (percentNext: int, reportNext: int, reports: seq<int>, full: nat, ghost rounds: seq<nat>, ghost next: nat)
    requires Rising(w) && w.fetch(k).Data? && Watched(w, k, percentPre, reportPre, progress, at, pre)
    ensures Reported(w, reports, rounds, k + 1) && Spaced(reports)
    ensures full == if w.size(k + 1) == w.fileSize then 1 else 0
    ensures full == 0 ==> Watched(w, k + 1, percentNext, reportNext, reports, rounds, next)
  {
    hide PercentOf, Spaced, LastOf, Reported, Later;
    percentNext, reportNext, reports, full, rounds, next := percentPre, reportPre, progress, 0, at, pre;
    var percentNow := PercentOf(w.size(k + 1), w.fileSize);
    PercentGrows(w.size(k), w.size(k + 1), w.fileSize);
    ReportedStill(w, progress, at, k);
    var reportNow := w.clock(k);
    if reportNow < reportNext {
      reportNext, next := reportNow, k;
    }
    if (percentNow - percentNext > 5 && reportNow - reportNext > 50) || percentNow >= PERCENT_MAX {
      if percentNow < PERCENT_MAX {
        SpacedMore(progress, percentNow);
        if at != [] {
          IsLater(w, at, pre, k);
        }
        ReportedMore(w, progress, at, k, percentNow);
        reports, rounds := progress + [percentNow], at + [k];
        percentNext := percentNow;
      } else {
        full := 1;
      }
      reportNext, next := reportNow, k;
    }
  }

  /** The loop, with everything it does to the outside: what it stored, the progress it reported below the maximum and at
      it, how often it fetched, and the failure it reported.  It ends: with every round either bytes or retries run out.
      When time passes between fetches, no progress of more than five percent stays unreported.
      Only a write that fails stops it with NotWritten, the first one does, and the first complete download stops it, too. */
  method PerformSync(w: World)
    returns (r: Result, stored: seq<int>, progress: seq<int>, full: nat, failure: Option<Report>, n: nat, ghost at: seq<nat>)
    requires Rising(w) && w.retryMax.Some?
    ensures Spaced(progress) && |progress| <= 16 && full <= 1 && Reported(w, progress, at, n)
    ensures if r.NotWritten? then
              n > 0 && AllWritten(w, n - 1) && w.fetch(n - 1).Data? && !w.written(n - 1)
            else AllWritten(w, n)
    ensures n > 0 && Unfinished(w, n - 1)
    ensures r.Done? <==> failure.None?
    ensures r.Done? ==> w.fetch(n - 1).Data? && w.finished(n) && w.valid && stored == Chunks(w.fetch, n)
    ensures r.NotValid? ==>
              failure == Some(CheckFailed) && w.fetch(n - 1).Data? && w.finished(n) && !w.valid && stored == Chunks(w.fetch, n)
    ensures r.NotWritten? ==> failure == Some(BurnFailed) && stored == Chunks(w.fetch, n - 1)
    ensures r.NotFetched? ==> failure == Some(FetchFailed) && stored == Chunks(w.fetch, n) && GaveUp(w, n)
    ensures r.Done? || r.NotValid? ==> (full == 1 <==> w.size(n) == w.fileSize)
    ensures r.NotWritten? || r.NotFetched? ==> full == 0
    ensures Ticking(w) && !r.NotWritten? ==> full == 1 || PercentOf(w.size(n), w.fileSize) <= LastOf(progress) + 5
  {
    WatchedAtFirst(w);
    NoRounds(w);
    hide PercentOf, Spaced, LastOf, Reported, AllWritten, Unfinished;
    stored, progress, full, failure, n, at := [], [], 0, None, 0, [];
    var retry, percentPre, reportPre := 0, 0, 0;
    ghost var fails, pre := 0, 0;
    while true
      invariant stored == Chunks(w.fetch, n) && full == 0 && failure.None?
      invariant n > 0 ==> w.size(n) < w.fileSize
      invariant retry == RETRY_INTERVAL * fails && fails <= n && forall k :: n - fails <= k < n ==> w.fetch(k).Failed?
      invariant fails > 0 ==> RETRY_INTERVAL * (fails - 1) < w.retryMax.value
      invariant Watched(w, n, percentPre, reportPre, progress, at, pre) && AllWritten(w, n) && Unfinished(w, n)
      decreases w.fileSize - w.size(n), w.retryMax.value - retry
    {
      var k := n;
      var got := w.fetch(k);
      n := n + 1;
      OneRound(w, k);
      AtMostSixteen(progress);
      if got.Failed? {
        WatchedStill(w, k, percentPre, reportPre, progress, at, pre);
        if retry >= w.retryMax.value {
          assert GivenUp(w, n, fails);
          return NotFetched, stored, progress, full, Some(FetchFailed), n, at;
        }
        retry, fails := retry + RETRY_INTERVAL, fails + 1;
        continue;
      }
      retry, fails := 0, 0;
      if !w.written(k) {
        ReportedStill(w, progress, at, k);
        return NotWritten, stored, progress, full, Some(BurnFailed), n, at;
      }
      stored := stored + got.bytes;
      percentPre, reportPre, progress, full, at, pre := ReportProgress(w, k, percentPre, reportPre, progress, at, pre);
      AtMostSixteen(progress);
      if w.finished(n) {
        if w.valid {
          return Done, stored, progress, full, None, n, at;
        }
        return NotValid, stored, progress, full, Some(CheckFailed), n, at;
      }
    }
  }

  lemma {:induction false} NoRounds(w: World)
    ensures AllWritten(w, 0) && Unfinished(w, 0) && (w.fileSize > 0 ==> Reported(w, [], [], 0))
  {
  }

  lemma {:induction false} OneRound(w: World, k: nat)
    ensures AllWritten(w, k) && (w.fetch(k).Data? ==> w.written(k)) ==> AllWritten(w, k + 1)
    ensures Unfinished(w, k) && (w.fetch(k).Data? ==> !w.finished(k + 1)) ==> Unfinished(w, k + 1)
  {
  }

  lemma {:induction false} IsLater(w: World, at: seq<nat>, pre: nat, k: nat)
    requires at != [] && at[|at| - 1] <= pre < k && w.fetch(pre).Data? && w.clock(k) > w.clock(pre) + 50
    ensures Later(w, at[|at| - 1], k)
  {
  }

  /** The last failures + 1 fetches failed, and the retry budget was spent with just the last of them. */
  ghost predicate GivenUp(w: World, n: nat, failures: nat) {
    && w.retryMax.Some? && failures < n
    && (forall k :: n - 1 - failures <= k < n ==> w.fetch(k).Failed?)
    && 100 * failures >= w.retryMax.value
    && (failures > 0 ==> 100 * (failures - 1) < w.retryMax.value)
  }

  ghost predicate GaveUp(w: World, n: nat) {
    exists failures: nat :: GivenUp(w, n, failures)
  }
}

/** A model of class TransactionRate: a windowed estimator that turns the
    cumulative block and transaction counters of one validator into an
    average transaction rate and an average block time. */
module RateEstimator {

  /** The window size calculate_txn_rate uses when its caller names none. */
  const DEFAULT_WINDOW_SIZE: int := 10

  /** One history entry: the committed-transaction count and the wall-clock
      time at which a change of the block count was seen. */
  datatype Sample = Sample(txnCount: int, time: real)

  /** What one call yields: nothing when the block count is unchanged (the
      source falls off the end and returns None), the pair of averages when a
      sample was recorded, or the division fault the source raises when the
      window spans no time. */
  datatype Outcome =
    | NoUpdate
    | Rates(avgTxnRate: real, avgBlockTime: real)
    | ZeroElapsedTime

  /** The fields of a TransactionRate object, oldest sample first. */
  datatype RateState = RateState(
    history: seq<Sample>,
    previousBlockCount: int,
    avgTxnRate: real,
    avgBlockTime: real,
    windowTime: real,
    windowTxnCount: int)

  /** The state __init__ builds. */
  function Initial(): RateState
  {
    RateState([], 0, 0.0, 0.0, 0.0, 0)
  }

  function Min(a: int, b: int): int
  {
    if a <= b then a else b
  }

  /** One call of calculate_txn_rate at wall-clock time `now`: the new state
      and what the call yields. */
  function Calculate(s: RateState, blockCount: int, txnCount: int, now: real, windowSize: int): (r: (RateState, Outcome))
    // An unchanged block count changes nothing and yields nothing.
    ensures r.1 == NoUpdate <==> blockCount == s.previousBlockCount
    ensures r.1 == NoUpdate ==> r.0 == s
    // A changed block count is remembered and its sample becomes the tip.
    ensures r.1 != NoUpdate ==>
      r.0.previousBlockCount == blockCount &&
      |r.0.history| > 0 && r.0.history[|r.0.history| - 1] == Sample(txnCount, now)
    // Exactly one sample is appended; the oldest one alone is evicted, and only
    // after the averages were computed over more than windowSize samples.
    ensures r.1 != NoUpdate ==>
      var appended := s.history + [Sample(txnCount, now)];
      var evicts := r.1.Rates? && s.history != [] && |appended| > windowSize;
      r.0.history == (if evicts then appended[1..] else appended)
    // With fewer than two samples both averages are reset to zero.
    ensures r.1 != NoUpdate && s.history == [] ==>
      r.1 == Rates(0.0, 0.0) &&
      r.0 == s.(history := [Sample(txnCount, now)], previousBlockCount := blockCount,
                avgTxnRate := 0.0, avgBlockTime := 0.0)
    // The division faults exactly when the tip and the tail share a timestamp;
    // the averages keep their old values, the window fields are already set.
    ensures r.1 == ZeroElapsedTime <==>
      blockCount != s.previousBlockCount && s.history != [] && now == s.history[0].time
    ensures r.1 == ZeroElapsedTime ==>
      r.0.avgTxnRate == s.avgTxnRate && r.0.avgBlockTime == s.avgBlockTime &&
      r.0.windowTime == 0.0 && r.0.windowTxnCount == txnCount - s.history[0].txnCount
    // Otherwise the averages run from tip to tail over the whole window, the
    // sample count taken before any eviction.
    ensures r.1.Rates? && s.history != [] ==>
      var tail := s.history[0];
      r.0.windowTime == now - tail.time && r.0.windowTime != 0.0 &&
      r.0.windowTxnCount == txnCount - tail.txnCount &&
      r.1.avgTxnRate * r.0.windowTime == r.0.windowTxnCount as real &&
      r.1.avgBlockTime * |s.history| as real == r.0.windowTime
    // The pair returned is the pair stored.
    ensures r.1.Rates? ==> r.0.avgTxnRate == r.1.avgTxnRate && r.0.avgBlockTime == r.1.avgBlockTime
  {
    if blockCount == s.previousBlockCount then
      (s, NoUpdate)
    else
      var appended := s.history + [Sample(txnCount, now)];
      var recorded := s.(history := appended, previousBlockCount := blockCount);
      if |appended| < 2 then
        (recorded.(avgTxnRate := 0.0, avgBlockTime := 0.0), Rates(0.0, 0.0))
      else
        var tail := appended[0];
        var windowTime := now - tail.time;
        var windowTxnCount := txnCount - tail.txnCount;
        var measured := recorded.(windowTime := windowTime, windowTxnCount := windowTxnCount);
        if windowTime == 0.0 then
          (measured, ZeroElapsedTime)
        else
          var rate := windowTxnCount as real / windowTime;
          var blockTime := windowTime / (|appended| - 1) as real;
          var kept := if |appended| > windowSize then appended[1..] else appended;
          (measured.(history := kept, avgTxnRate := rate, avgBlockTime := blockTime), Rates(rate, blockTime))
  }

  class TransactionRate {
    var txnHistory: seq<Sample>
    var previousBlockCount: int
    var avgTxnRate: real
    var avgBlockTime: real
    var windowTime: real
    var windowTxnCount: int

    function State(): RateState
      reads this
    {
      RateState(txnHistory, previousBlockCount, avgTxnRate, avgBlockTime, windowTime, windowTxnCount)
    }

    constructor ()
      ensures txnHistory == [] && previousBlockCount == 0
      ensures avgTxnRate == 0.0 && avgBlockTime == 0.0 && windowTime == 0.0 && windowTxnCount == 0
    {
      txnHistory := [];
      previousBlockCount := 0;
      avgTxnRate := 0.0;
      avgBlockTime := 0.0;
      windowTime := 0.0;
      windowTxnCount := 0;
    }

    /** calculate_txn_rate, with the clock reading passed in as `now`. */
    method CalculateTxnRate(currentBlockCount: int, currentTxnCount: int, now: real, windowSize: int := DEFAULT_WINDOW_SIZE)
      returns (r: Outcome)
      modifies this
      ensures (State(), r) == Calculate(old(State()), currentBlockCount, currentTxnCount, now, windowSize)
    {
      if currentBlockCount == previousBlockCount {
        return NoUpdate;
      }
      previousBlockCount := currentBlockCount;
      var currentBlockTime := now;
      txnHistory := txnHistory + [Sample(currentTxnCount, currentBlockTime)];
      if |txnHistory| < 2 {
        avgTxnRate := 0.0;
        avgBlockTime := 0.0;
        return Rates(avgTxnRate, avgBlockTime);
      }
      var past := txnHistory[0];
      windowTime := currentBlockTime - past.time;
      windowTxnCount := currentTxnCount - past.txnCount;
      if windowTime == 0.0 {
        return ZeroElapsedTime;
      }
      avgTxnRate := windowTxnCount as real / windowTime;
      avgBlockTime := windowTime / (|txnHistory| - 1) as real;
      if |txnHistory| > windowSize {
        txnHistory := txnHistory[1..];
      }
      return Rates(avgTxnRate, avgBlockTime);
    }
  }

  /** A window of at most windowSize samples stays so after a call, unless the
      call faults: the source raises before it evicts, so the history then
      holds one sample more. */
  lemma {:induction false} WindowStaysBounded(s: RateState, blockCount: int, txnCount: int, now: real, windowSize: int)
    requires 1 <= windowSize && |s.history| <= windowSize
    ensures var r := Calculate(s, blockCount, txnCount, now, windowSize);
      (r.1 != ZeroElapsedTime ==> |r.0.history| <= windowSize) &&
      (r.1 == ZeroElapsedTime ==> |r.0.history| == |s.history| + 1)
  {
  }

  /** One poll of a validator: its counters and the clock reading. */
  datatype Observation = Observation(blockCount: int, txnCount: int, now: real)

  /** The state after a sequence of polls, all with the same window size. */
  function Run(s: RateState, polls: seq<Observation>, windowSize: int): RateState
    decreases |polls|
  {
    if polls == [] then s
    else
      var p := polls[0];
      Run(Calculate(s, p.blockCount, p.txnCount, p.now, windowSize).0, polls[1..], windowSize)
  }

  /** Every retained sample is older than the poll and counted no more transactions. */
  predicate Precedes(history: seq<Sample>, p: Observation)
  {
    forall k :: 0 <= k < |history| ==> history[k].time < p.now && history[k].txnCount <= p.txnCount
  }

  /** The clock strictly advances and the transaction counter never decreases. */
  predicate Steady(polls: seq<Observation>)
  {
    forall i, j :: 0 <= i < j < |polls| ==>
      polls[i].now < polls[j].now && polls[i].txnCount <= polls[j].txnCount
  }

  /** Every poll sees a block count different from the one before it. */
  predicate EveryPollChanges(previous: int, polls: seq<Observation>)
  {
    (polls != [] ==> polls[0].blockCount != previous) &&
    forall i :: 0 <= i < |polls| - 1 ==> polls[i].blockCount != polls[i + 1].blockCount
  }

  /** Polling with an unchanged block count, however often, changes no field:
      callers keep reading the averages of the last change. */
  lemma {:induction false} UnchangedPollingIsNoOp(s: RateState, polls: seq<Observation>, windowSize: int)
    requires forall i :: 0 <= i < |polls| ==> polls[i].blockCount == s.previousBlockCount
    ensures Run(s, polls, windowSize) == s
    decreases |polls|
  {
    if polls != [] {
      UnchangedPollingIsNoOp(s, polls[1..], windowSize);
    }
  }

  /** One poll under an advancing clock never faults, keeps the window within
      windowSize and the averages non-negative, and passes the ordering on to
      the next poll. */
  lemma {:induction false} SteadyStep(s: RateState, p: Observation, next: seq<Observation>, windowSize: int)
    requires 1 <= windowSize && |s.history| <= windowSize
    requires 0.0 <= s.avgTxnRate && 0.0 <= s.avgBlockTime
    requires Precedes(s.history, p)
    requires forall j :: 0 <= j < |next| ==> p.now < next[j].now && p.txnCount <= next[j].txnCount
    ensures var r := Calculate(s, p.blockCount, p.txnCount, p.now, windowSize);
      r.1 != ZeroElapsedTime &&
      |r.0.history| <= windowSize &&
      0.0 <= r.0.avgTxnRate && 0.0 <= r.0.avgBlockTime &&
      (next != [] ==> Precedes(r.0.history, next[0])) &&
      (r.1 != NoUpdate ==> |r.0.history| == Min(|s.history| + 1, windowSize))
  {
    var r := Calculate(s, p.blockCount, p.txnCount, p.now, windowSize);
    var appended := s.history + [Sample(p.txnCount, p.now)];
    if next != [] {
      forall k | 0 <= k < |r.0.history|
        ensures r.0.history[k].time < next[0].now && r.0.history[k].txnCount <= next[0].txnCount
      {
        var j := if r.1 != NoUpdate && |r.0.history| < |appended| then k + 1 else k;
        assert r.0.history[k] == (if r.1 == NoUpdate then s.history[k] else appended[j]);
      }
    }
  }

  /** Under an advancing clock and a non-decreasing transaction counter the
      window never exceeds windowSize and both averages stay non-negative; when
      every poll changes the block count, the window grows one sample per poll
      until it holds windowSize samples. */
  lemma {:induction false} SteadyRun(s: RateState, polls: seq<Observation>, windowSize: int)
    requires 1 <= windowSize && |s.history| <= windowSize
    requires 0.0 <= s.avgTxnRate && 0.0 <= s.avgBlockTime
    requires polls != [] ==> Precedes(s.history, polls[0])
    requires Steady(polls)
    ensures var t := Run(s, polls, windowSize);
      |t.history| <= windowSize && 0.0 <= t.avgTxnRate && 0.0 <= t.avgBlockTime
    ensures EveryPollChanges(s.previousBlockCount, polls) ==>
      |Run(s, polls, windowSize).history| == Min(|s.history| + |polls|, windowSize)
    decreases |polls|
  {
    if polls != [] {
      var p := polls[0];
      var rest := polls[1..];
      SteadyStep(s, p, rest, windowSize);
      var r := Calculate(s, p.blockCount, p.txnCount, p.now, windowSize);
      assert Steady(rest);
      SteadyRun(r.0, rest, windowSize);
      if EveryPollChanges(s.previousBlockCount, polls) {
        assert EveryPollChanges(r.0.previousBlockCount, rest);
      }
    }
  }

  /** Every retained sample was taken before `now`. */
  predicate OlderThan(history: seq<Sample>, now: real)
  {
    forall k :: 0 <= k < |history| ==> history[k].time < now
  }

  /** The clock strictly advances from poll to poll. */
  predicate Advancing(polls: seq<Observation>)
  {
    forall i, j :: 0 <= i < j < |polls| ==> polls[i].now < polls[j].now
  }

  /** One poll later than every retained sample never faults, keeps the window
      within windowSize, grows it by one sample up to windowSize when the block
      count changed, and leaves every sample older than any later poll. */
  lemma {:induction false} AdvancingStep(s: RateState, p: Observation, next: seq<Observation>, windowSize: int)
    requires 1 <= windowSize && |s.history| <= windowSize
    requires OlderThan(s.history, p.now)
    requires forall j :: 0 <= j < |next| ==> p.now < next[j].now
    ensures var r := Calculate(s, p.blockCount, p.txnCount, p.now, windowSize);
      r.1 != ZeroElapsedTime &&
      |r.0.history| <= windowSize &&
      (next != [] ==> OlderThan(r.0.history, next[0].now)) &&
      (r.1 != NoUpdate ==> |r.0.history| == Min(|s.history| + 1, windowSize))
  {
    var r := Calculate(s, p.blockCount, p.txnCount, p.now, windowSize);
    var appended := s.history + [Sample(p.txnCount, p.now)];
    if next != [] {
      forall k | 0 <= k < |r.0.history|
        ensures r.0.history[k].time < next[0].now
      {
        var j := if r.1 != NoUpdate && |r.0.history| < |appended| then k + 1 else k;
        assert r.0.history[k] == (if r.1 == NoUpdate then s.history[k] else appended[j]);
      }
    }
  }

  /** Under a strictly advancing clock, whatever the transaction counter does,
      the window never exceeds windowSize; when every poll changes the block
      count it grows one sample per poll until it holds windowSize samples. */
  lemma {:induction false} AdvancingRun(s: RateState, polls: seq<Observation>, windowSize: int)
    requires 1 <= windowSize && |s.history| <= windowSize
    requires polls != [] ==> OlderThan(s.history, polls[0].now)
    requires Advancing(polls)
    ensures |Run(s, polls, windowSize).history| <= windowSize
    ensures EveryPollChanges(s.previousBlockCount, polls) ==>
      |Run(s, polls, windowSize).history| == Min(|s.history| + |polls|, windowSize)
    decreases |polls|
  {
    if polls != [] {
      var p := polls[0];
      var rest := polls[1..];
      AdvancingStep(s, p, rest, windowSize);
      var r := Calculate(s, p.blockCount, p.txnCount, p.now, windowSize);
      assert Advancing(rest);
      AdvancingRun(r.0, rest, windowSize);
      if EveryPollChanges(s.previousBlockCount, polls) {
        assert EveryPollChanges(r.0.previousBlockCount, rest);
      }
    }
  }

  /** From a fresh estimator, n polls under a strictly advancing clock that
      each change the block count leave exactly min(n, windowSize) samples. */
  lemma {:induction false} WindowFills(polls: seq<Observation>, windowSize: int)
    requires 1 <= windowSize
    requires Advancing(polls) && EveryPollChanges(Initial().previousBlockCount, polls)
    ensures |Run(Initial(), polls, windowSize).history| == Min(|polls|, windowSize)
  {
    AdvancingRun(Initial(), polls, windowSize);
  }

  /** How many polls of the run fault. */
  function Faults(s: RateState, polls: seq<Observation>, windowSize: int): nat
    decreases |polls|
  {
    if polls == [] then 0
    else
      var p := polls[0];
      var r := Calculate(s, p.blockCount, p.txnCount, p.now, windowSize);
      (if r.1 == ZeroElapsedTime then 1 else 0) + Faults(r.0, polls[1..], windowSize)
  }

  /** Once a fault has pushed the history past windowSize it never comes back:
      a computed pair appends one sample and evicts one, and every further
      fault adds one more. */
  lemma {:induction false} OverfullWindowStays(s: RateState, polls: seq<Observation>, windowSize: int)
    requires 1 <= windowSize && |s.history| > windowSize
    ensures |Run(s, polls, windowSize).history| == |s.history| + Faults(s, polls, windowSize)
    decreases |polls|
  {
    if polls != [] {
      var p := polls[0];
      var r := Calculate(s, p.blockCount, p.txnCount, p.now, windowSize);
      assert |r.0.history| == |s.history| + (if r.1 == ZeroElapsedTime then 1 else 0);
      OverfullWindowStays(r.0, polls[1..], windowSize);
    }
  }

  /** A clock stuck at the tail's timestamp faults on every change of the block
      count, and each fault keeps the tail and adds a sample: the history grows
      without bound, whatever windowSize is. */
  lemma {:induction false} StuckClockGrows(s: RateState, polls: seq<Observation>, windowSize: int)
    requires s.history != []
    requires forall i :: 0 <= i < |polls| ==> polls[i].now == s.history[0].time
    requires EveryPollChanges(s.previousBlockCount, polls)
    ensures |Run(s, polls, windowSize).history| == |s.history| + |polls|
    ensures Run(s, polls, windowSize).history[0] == s.history[0]
    ensures Faults(s, polls, windowSize) == |polls|
    decreases |polls|
  {
    if polls != [] {
      var p := polls[0];
      var rest := polls[1..];
      var r := Calculate(s, p.blockCount, p.txnCount, p.now, windowSize);
      assert r.1 == ZeroElapsedTime;
      assert r.0.history[0] == s.history[0];
      assert EveryPollChanges(r.0.previousBlockCount, rest);
      StuckClockGrows(r.0, rest, windowSize);
    }
  }

  /** A sample of 100 transactions at time 0, then block 2 with 150 transactions
      five seconds later: 10 transactions per second, one block per 5 seconds. */
  lemma {:induction false} TwoSampleWindow()
    ensures Calculate(RateState([Sample(100, 0.0)], 1, 0.0, 0.0, 0.0, 0), 2, 150, 5.0, DEFAULT_WINDOW_SIZE).1
      == Rates(10.0, 5.0)
  {
  }
}

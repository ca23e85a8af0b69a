/** `generate_vllm` (chandra/model/vllm.py): per-item retry of degenerate or
    failed generations, over a batch whose results keep the batch order.

    The inference endpoint is an oracle `client(item, callNumber, sampling)`:
    the reply to the given call of one item made with the given sampling
    parameters. The thread pool is modelled as a sequential map over the
    batch; items share no state, so the order of completion cannot change
    any result. */
module Orchestrator {
  import opened Wrappers
  import RepeatDetector

  /** The sampling parameters of one call: `(temperature, top_p)`. */
  datatype Sampling = Sampling(temperature: real, topP: real)

  /** `GenerationResult(raw, token_count, error)`. */
  datatype GenerationResult = GenerationResult(raw: string, tokenCount: int, error: bool)

  /** What the endpoint does with one request: it completes with the text of
      the first choice and the completion token count, or it raises. */
  datatype Reply = Completion(content: string, completionTokens: int) | Raised

  /** Retry budget and the two sampling configurations of `generate_vllm`. */
  datatype RetryConfig = RetryConfig(maxRetries: int, first: Sampling, retry: Sampling)

  /** Default `(temperature, top_p)` and `(retry_temperature, retry_top_p)`. */
  const DefaultFirst: Sampling := Sampling(0.0, 0.1)
  const DefaultRetry: Sampling := Sampling(0.3, 0.95)
  /** `settings.MAX_VLLM_RETRIES`, used when `max_retries` is None. */
  const DefaultMaxRetries: int := 6
  /** Upper bound of the default pool size. */
  const MaxDefaultWorkers: int := 64
  /** Characters cut from the end for the second degeneracy check. */
  const SuffixCut: int := 50

  /** The end of `_generate`: a raised exception is caught and becomes an
      empty errored result; a completion is copied. */
  function ToResult(reply: Reply): (r: GenerationResult)
    ensures r.error <==> reply.Raised?
    ensures reply.Raised? ==> r.raw == "" && r.tokenCount == 0
    ensures reply.Completion? ==> r.raw == reply.content && r.tokenCount == reply.completionTokens
  {
    match reply
    case Completion(content, tokens) => GenerationResult(content, tokens, false)
    case Raised => GenerationResult("", 0, true)
  }

  /** Sampling parameters of call number `i` of one item. */
  function SamplingFor(cfg: RetryConfig, i: nat): Sampling {
    if i == 0 then cfg.first else cfg.retry
  }

  /** Result of call number `i` of one item. */
  function Attempt(client: (nat, Sampling) -> Reply, cfg: RetryConfig, i: nat): GenerationResult {
    ToResult(client(i, SamplingFor(cfg, i)))
  }

  /** Number of retries the budget allows (a negative budget allows none). */
  function Budget(cfg: RetryConfig): nat {
    if cfg.maxRetries < 0 then 0 else cfg.maxRetries
  }

  /** The retry policy, stated without the loop: `n` calls were made and
      `result` is the last of them; every earlier call asked for a retry, and
      the last one either did not or used up the budget. */
  ghost predicate RetryOutcome(client: (nat, Sampling) -> Reply, needsRetry: GenerationResult -> bool,
                               cfg: RetryConfig, result: GenerationResult, n: nat)
  {
    && 1 <= n <= 1 + Budget(cfg)
    && result == Attempt(client, cfg, n - 1)
    && (forall i: nat :: i < n - 1 ==> needsRetry(Attempt(client, cfg, i)))
    && (n - 1 < cfg.maxRetries ==> !needsRetry(result))
  }

  /** `process_item`: one call with the first sampling, then, while the
      budget lasts and the result needs a retry, one more call with the retry
      sampling. `calls` records the sampling of every call made. */
  method ProcessItem(client: (nat, Sampling) -> Reply, needsRetry: GenerationResult -> bool, cfg: RetryConfig)
    returns (result: GenerationResult, calls: seq<Sampling>)
    ensures RetryOutcome(client, needsRetry, cfg, result, |calls|)
    ensures forall i :: 0 <= i < |calls| ==> calls[i] == SamplingFor(cfg, i)
  {
    result := ToResult(client(0, cfg.first));
    calls := [cfg.first];
    var retries: nat := 0;
    while retries < cfg.maxRetries && needsRetry(result)
      invariant retries <= Budget(cfg)
      invariant |calls| == retries + 1
      invariant forall i :: 0 <= i < |calls| ==> calls[i] == SamplingFor(cfg, i)
      invariant result == Attempt(client, cfg, retries)
      invariant forall i: nat :: i < retries ==> needsRetry(Attempt(client, cfg, i))
      decreases cfg.maxRetries - retries
    {
      result := ToResult(client(retries + 1, cfg.retry));
      calls := calls + [cfg.retry];
      retries := retries + 1;
    }
  }

  /** The retry policy determines the result and the number of calls. */
  lemma RetryOutcomeUnique(client: (nat, Sampling) -> Reply, needsRetry: GenerationResult -> bool,
                           cfg: RetryConfig, r1: GenerationResult, n1: nat, r2: GenerationResult, n2: nat)
    requires RetryOutcome(client, needsRetry, cfg, r1, n1)
    requires RetryOutcome(client, needsRetry, cfg, r2, n2)
    ensures n1 == n2 && r1 == r2
  {
  }

  /** A first result that needs no retry is returned after exactly one call,
      whatever the retry budget. */
  lemma AcceptedFirstAttempt(client: (nat, Sampling) -> Reply, needsRetry: GenerationResult -> bool,
                             cfg: RetryConfig, result: GenerationResult, n: nat)
    requires RetryOutcome(client, needsRetry, cfg, result, n)
    requires !needsRetry(Attempt(client, cfg, 0))
    ensures n == 1 && result == Attempt(client, cfg, 0)
  {
  }

  /** When every call would ask for a retry, the whole budget is used:
      exactly `1 + max_retries` calls, returning the last (still degenerate
      or failed) result. */
  lemma AllRejectedUsesBudget(client: (nat, Sampling) -> Reply, needsRetry: GenerationResult -> bool,
                              cfg: RetryConfig, result: GenerationResult, n: nat)
    requires RetryOutcome(client, needsRetry, cfg, result, n)
    requires forall i: nat :: needsRetry(Attempt(client, cfg, i))
    ensures n == 1 + Budget(cfg)
    ensures needsRetry(result)
  {
    assert needsRetry(Attempt(client, cfg, n - 1));
  }

  /** With no retries allowed, exactly one call is made, whatever it
      returns. */
  lemma NoRetriesOneCall(client: (nat, Sampling) -> Reply, needsRetry: GenerationResult -> bool,
                         cfg: RetryConfig, result: GenerationResult, n: nat)
    requires cfg.maxRetries <= 0
    requires RetryOutcome(client, needsRetry, cfg, result, n)
    ensures n == 1 && result == ToResult(client(0, cfg.first))
  {
  }

  /** A client whose first reply needs no retry gives the same result under
      any two retry budgets. */
  lemma BudgetIrrelevantWhenAccepted(client: (nat, Sampling) -> Reply, needsRetry: GenerationResult -> bool,
                                     cfg1: RetryConfig, r1: GenerationResult, n1: nat,
                                     cfg2: RetryConfig, r2: GenerationResult, n2: nat)
    requires cfg1.first == cfg2.first
    requires !needsRetry(Attempt(client, cfg1, 0))
    requires RetryOutcome(client, needsRetry, cfg1, r1, n1)
    requires RetryOutcome(client, needsRetry, cfg2, r2, n2)
    ensures r1 == r2 && n1 == n2 == 1
  {
    AcceptedFirstAttempt(client, needsRetry, cfg1, r1, n1);
    assert Attempt(client, cfg1, 0) == Attempt(client, cfg2, 0);
    AcceptedFirstAttempt(client, needsRetry, cfg2, r2, n2);
  }

  /** The oracle of one batch item. */
  function ItemClient<T>(client: (T, nat, Sampling) -> Reply, item: T): (nat, Sampling) -> Reply {
    (i: nat, s: Sampling) => client(item, i, s)
  }

  /** `executor.map(process_item, batch, repeat(max_retries))`: one retry
      run per item, results in batch order. */
  method ProcessBatch<T>(batch: seq<T>, client: (T, nat, Sampling) -> Reply,
                         needsRetry: GenerationResult -> bool, cfg: RetryConfig)
    returns (results: seq<GenerationResult>, calls: seq<seq<Sampling>>)
    ensures |results| == |batch| && |calls| == |batch|
    ensures forall i :: 0 <= i < |batch| ==>
      RetryOutcome(ItemClient(client, batch[i]), needsRetry, cfg, results[i], |calls[i]|)
    ensures forall i, j :: 0 <= i < |batch| && 0 <= j < |calls[i]| ==> calls[i][j] == SamplingFor(cfg, j)
  {
    results := [];
    calls := [];
    var k := 0;
    while k < |batch|
      invariant k <= |batch|
      invariant |results| == k && |calls| == k
      invariant forall i :: 0 <= i < k ==>
        RetryOutcome(ItemClient(client, batch[i]), needsRetry, cfg, results[i], |calls[i]|)
      invariant forall i, j :: 0 <= i < k && 0 <= j < |calls[i]| ==> calls[i][j] == SamplingFor(cfg, j)
    {
      var r, c := ProcessItem(ItemClient(client, batch[k]), needsRetry, cfg);
      results := results + [r];
      calls := calls + [c];
      k := k + 1;
    }
  }

  /** Exception raised by a check or by the pool. */
  datatype Error =
    | UnexpectedKeyword  // TypeError: `cut_from_end` is not a parameter of the detector
    | NoWorkers          // ValueError: a thread pool needs at least one worker

  /** The retry test of `process_item` AS WRITTEN: the suffix check passes
      `cut_from_end=50`, which the detector does not accept, so the call
      raises whenever it is reached, that is whenever the first check is
      false and the output is longer than 50 characters. */
  function NeedsRetryAsWritten(r: GenerationResult): (v: Result<bool, Error>)
    ensures v.Failure? ==> v.error == UnexpectedKeyword
    ensures v.Failure? <==>
      !RepeatDetector.Degenerate(r.raw, RepeatDetector.DefaultMaxRepeats, RepeatDetector.DefaultWindowSize)
      && |r.raw| > SuffixCut
  {
    if RepeatDetector.DetectRepeatToken(r.raw, RepeatDetector.DefaultMaxRepeats, RepeatDetector.DefaultWindowSize)
    then Success(true)
    else if |r.raw| > SuffixCut then Failure(UnexpectedKeyword)
    else Success(r.error)
  }

  /** The retry test with the suffix check as intended: detection on the
      output without its last 50 characters. */
  function NeedsRetry(r: GenerationResult): (v: bool)
    ensures v <==>
      || RepeatDetector.Degenerate(r.raw, RepeatDetector.DefaultMaxRepeats, RepeatDetector.DefaultWindowSize)
      || (|r.raw| > SuffixCut
          && RepeatDetector.Degenerate(r.raw[..|r.raw| - SuffixCut],
                                       RepeatDetector.DefaultMaxRepeats, RepeatDetector.DefaultWindowSize))
      || r.error
    ensures NeedsRetryAsWritten(r).Success? ==> NeedsRetryAsWritten(r).value == v
  {
    || RepeatDetector.DetectRepeatToken(r.raw, RepeatDetector.DefaultMaxRepeats, RepeatDetector.DefaultWindowSize)
    || (|r.raw| > SuffixCut
        && RepeatDetector.DetectRepeatToken(r.raw[..|r.raw| - SuffixCut],
                                            RepeatDetector.DefaultMaxRepeats, RepeatDetector.DefaultWindowSize))
    || r.error
  }

  /** Wherever the as-written test does not raise it agrees with the
      intended one; failed calls and degenerate tails always ask for a retry. */
  lemma NeedsRetryRefinesAsWritten(r: GenerationResult)
    ensures NeedsRetryAsWritten(r).Success? ==> NeedsRetryAsWritten(r).value == NeedsRetry(r)
    ensures r.error ==> NeedsRetry(r)
    ensures RepeatDetector.Degenerate(r.raw, RepeatDetector.DefaultMaxRepeats, RepeatDetector.DefaultWindowSize)
      ==> NeedsRetry(r)
  {
  }

  /** `n` pairwise distinct characters, none of them an ASCII letter. */
  function DistinctText(n: nat): (s: string)
    requires n <= 0x100
    ensures |s| == n
    ensures forall i :: 0 <= i < n ==> s[i] == (0x100 + i) as char
  {
    seq(n, i requires 0 <= i < n => (0x100 + i) as char)
  }

  /** A concrete output on which the as-written retry test raises: 51
      distinct characters, so no repetition at all. With `max_retries >= 1`
      this is evaluated right after the first call, and the `TypeError`
      escapes `process_item` and the whole batch. */
  lemma SuffixCheckRaises()
    ensures NeedsRetryAsWritten(GenerationResult(DistinctText(51), 51, false)) == Failure(UnexpectedKeyword)
  {
    var text := DistinctText(51);
    var w := RepeatDetector.Window(text, 50);
    assert forall i :: 0 <= i < 50 ==> w[i] == (0x101 + i) as char;
    RepeatDetector.DistinctWindowNotDegenerate(text, 4, 50);
  }

  /** Pool size AS WRITTEN: `max_workers` defaults to `min(64, len(batch))`,
      and the executor rejects a size below one, so an empty batch without
      an explicit `max_workers` raises instead of returning no results. */
  function PoolSizeAsWritten(maxWorkers: Option<int>, batchLen: nat): (r: Result<int, Error>)
    ensures r.Success? ==> r.value >= 1
    ensures maxWorkers.None? ==> (r.Success? <==> batchLen > 0)
  {
    var n := match maxWorkers
      case Some(m) => m
      case None => if batchLen < MaxDefaultWorkers then batchLen else MaxDefaultWorkers;
    if n <= 0 then Failure(NoWorkers) else Success(n)
  }

  /** The failure in `PoolSizeAsWritten`: `generate_vllm([])` raises. */
  lemma EmptyBatchRaisesAsWritten()
    ensures PoolSizeAsWritten(None, 0) == Failure(NoWorkers)
  {
  }

  /** Pool size as intended: the default is `min(64, len(batch))` but at
      least one worker, so the default never fails; an explicit size below
      one still raises. */
  function PoolSize(maxWorkers: Option<int>, batchLen: nat): (r: Result<int, Error>)
    ensures maxWorkers.None? ==> r.Success? && 1 <= r.value <= MaxDefaultWorkers
    ensures maxWorkers.None? && batchLen > 0 ==>
      r.value <= batchLen && (r.value == batchLen || r.value == MaxDefaultWorkers)
    ensures maxWorkers.Some? ==> (r.Success? <==> maxWorkers.value >= 1)
    ensures r.Failure? ==> r.error == NoWorkers
    ensures PoolSizeAsWritten(maxWorkers, batchLen).Success? ==> r == PoolSizeAsWritten(maxWorkers, batchLen)
  {
    var n := match maxWorkers
      case Some(m) => m
      case None => if batchLen < 1 then 1 else if batchLen < MaxDefaultWorkers then batchLen else MaxDefaultWorkers;
    if n <= 0 then Failure(NoWorkers) else Success(n)
  }

  /** The end of one item's retry loop: its last result and the number of
      calls made. */
  datatype ItemRun = ItemRun(result: GenerationResult, calls: nat)

  /** `process_item` AS WRITTEN, from call number `k` on, with a retry test
      that may raise. The test is evaluated only while `k < max_retries`
      (the `and` short-circuits), and when it raises, the item raises. */
  function ProcessItemAsWritten(client: (nat, Sampling) -> Reply, test: GenerationResult -> Result<bool, Error>,
                                cfg: RetryConfig, k: nat): (r: Result<ItemRun, Error>)
    requires k <= Budget(cfg)
    ensures r.Failure? ==> exists x :: test(x) == Failure(r.error)
    ensures r.Success? ==> k < r.value.calls <= 1 + Budget(cfg)
    ensures r.Success? ==> r.value.result == Attempt(client, cfg, r.value.calls - 1)
    ensures r.Success? ==> forall i: nat :: k <= i < r.value.calls - 1 ==> test(Attempt(client, cfg, i)) == Success(true)
    ensures r.Success? && r.value.calls - 1 < cfg.maxRetries ==> test(r.value.result) == Success(false)
    decreases Budget(cfg) - k
  {
    var result := Attempt(client, cfg, k);
    if k < cfg.maxRetries then
      match test(result)
      case Failure(e) => Failure(e)
      case Success(again) =>
        if again then ProcessItemAsWritten(client, test, cfg, k + 1) else Success(ItemRun(result, k + 1))
    else Success(ItemRun(result, k + 1))
  }

  /** The retry test raises at call `j`, and the loop reaches it: every call
      from `k` up to `j` asked for a retry, and the budget was not used up. */
  ghost predicate RaisesAt(client: (nat, Sampling) -> Reply, test: GenerationResult -> Result<bool, Error>,
                           cfg: RetryConfig, k: nat, j: nat) {
    && k <= j < cfg.maxRetries
    && test(Attempt(client, cfg, j)).Failure?
    && forall i: nat :: k <= i < j ==> test(Attempt(client, cfg, i)) == Success(true)
  }

  /** An item raises exactly when the retry test raises at a call the loop
      reaches. */
  lemma {:induction false} ProcessItemAsWrittenRaises(client: (nat, Sampling) -> Reply,
                                                      test: GenerationResult -> Result<bool, Error>,
                                                      cfg: RetryConfig, k: nat)
    requires k <= Budget(cfg)
    ensures ProcessItemAsWritten(client, test, cfg, k).Failure? <==> exists j: nat :: RaisesAt(client, test, cfg, k, j)
    decreases Budget(cfg) - k
  {
    var v := test(Attempt(client, cfg, k));
    if k < cfg.maxRetries {
      if v.Failure? {
        assert RaisesAt(client, test, cfg, k, k);
      } else if v.value {
        var k1 := k + 1;
        ProcessItemAsWrittenRaises(client, test, cfg, k1);
        RaisesAtShift(client, test, cfg, k, k1);
      } else {
        NoRaiseAfterStop(client, test, cfg, k);
      }
    } else {
      NoRaiseAfterStop(client, test, cfg, k);
    }
  }

  /** A loop whose budget is spent, or whose call `k` asks for no retry,
      evaluates no further test, so none can raise. */
  lemma NoRaiseAfterStop(client: (nat, Sampling) -> Reply, test: GenerationResult -> Result<bool, Error>,
                         cfg: RetryConfig, k: nat)
    requires k >= cfg.maxRetries || test(Attempt(client, cfg, k)) == Success(false)
    ensures forall j: nat :: !RaisesAt(client, test, cfg, k, j)
  {
  }

  /** After a call that asks for a retry, the loop raises at the same calls
      as the loop started one call later. */
  lemma RaisesAtShift(client: (nat, Sampling) -> Reply, test: GenerationResult -> Result<bool, Error>,
                      cfg: RetryConfig, k: nat, k1: nat)
    requires k < cfg.maxRetries && test(Attempt(client, cfg, k)) == Success(true)
    requires k1 == k + 1
    ensures (exists j: nat :: RaisesAt(client, test, cfg, k, j)) <==> (exists j: nat :: RaisesAt(client, test, cfg, k1, j))
  {
    if exists j: nat :: RaisesAt(client, test, cfg, k1, j) {
      var j: nat :| RaisesAt(client, test, cfg, k1, j);
      assert RaisesAt(client, test, cfg, k, j);
    }
    if exists j: nat :: RaisesAt(client, test, cfg, k, j) {
      var j: nat :| RaisesAt(client, test, cfg, k, j);
      assert RaisesAt(client, test, cfg, k1, j);
    }
  }

  /** Where an item does not raise, the loop does what the retry policy does
      with any test that agrees with it wherever it does not raise. */
  lemma ProcessItemAsWrittenRefines(client: (nat, Sampling) -> Reply, test: GenerationResult -> Result<bool, Error>,
                                    needsRetry: GenerationResult -> bool, cfg: RetryConfig)
    requires forall x :: test(x).Success? ==> test(x).value == needsRetry(x)
    requires ProcessItemAsWritten(client, test, cfg, 0).Success?
    ensures var run := ProcessItemAsWritten(client, test, cfg, 0).value;
            RetryOutcome(client, needsRetry, cfg, run.result, run.calls)
  {
    var run := ProcessItemAsWritten(client, test, cfg, 0).value;
    forall i: nat | i < run.calls - 1
      ensures needsRetry(Attempt(client, cfg, i))
    {
      assert test(Attempt(client, cfg, i)) == Success(true);
    }
  }

  /** `executor.map(process_item, ...)` AS WRITTEN, listed in batch order:
      the results, or the exception of a raising item. */
  function ProcessBatchAsWritten<T>(batch: seq<T>, client: (T, nat, Sampling) -> Reply,
                                    test: GenerationResult -> Result<bool, Error>, cfg: RetryConfig)
    : (r: Result<seq<GenerationResult>, Error>)
    ensures r.Success? <==> forall i :: 0 <= i < |batch| ==>
      ProcessItemAsWritten(ItemClient(client, batch[i]), test, cfg, 0).Success?
    ensures r.Failure? ==> exists x :: test(x) == Failure(r.error)
    ensures r.Success? ==> |r.value| == |batch|
    ensures r.Success? ==> forall i :: 0 <= i < |batch| ==>
      r.value[i] == ProcessItemAsWritten(ItemClient(client, batch[i]), test, cfg, 0).value.result
  {
    if |batch| == 0 then Success([])
    else
      var run :- ProcessItemAsWritten(ItemClient(client, batch[0]), test, cfg, 0);
      var rest :- ProcessBatchAsWritten(batch[1..], client, test, cfg);
      assert forall i :: 1 <= i < |batch| ==> batch[i] == batch[1..][i - 1];
      Success([run.result] + rest)
  }

  /** `generate_vllm` AS WRITTEN: the pool may reject its size, and an item
      whose retry test raises makes the whole call raise. */
  function GenerateVllmAsWritten<T>(batch: seq<T>, client: (T, nat, Sampling) -> Reply,
                                    maxRetries: Option<int>, maxWorkers: Option<int>,
                                    first: Sampling, retry: Sampling)
    : (r: Result<seq<GenerationResult>, Error>)
    ensures var cfg := RetryConfig(maxRetries.GetOr(DefaultMaxRetries), first, retry);
            r.Success? <==>
              (&& PoolSizeAsWritten(maxWorkers, |batch|).Success?
               && forall i :: 0 <= i < |batch| ==>
                    ProcessItemAsWritten(ItemClient(client, batch[i]), NeedsRetryAsWritten, cfg, 0).Success?)
    ensures r.Failure? ==> (r.error == NoWorkers <==> PoolSizeAsWritten(maxWorkers, |batch|).Failure?)
    ensures r.Success? ==> |r.value| == |batch|
  {
    var pool :- PoolSizeAsWritten(maxWorkers, |batch|);
    ProcessBatchAsWritten(batch, client, NeedsRetryAsWritten, RetryConfig(maxRetries.GetOr(DefaultMaxRetries), first, retry))
  }

  /** Where the as-written `generate_vllm` returns, the intended one returns
      the same results: its pool size is accepted and every result is the
      one the intended retry policy settles on. */
  lemma GenerateVllmAsWrittenRefines<T>(batch: seq<T>, client: (T, nat, Sampling) -> Reply,
                                        maxRetries: Option<int>, maxWorkers: Option<int>,
                                        first: Sampling, retry: Sampling)
    requires GenerateVllmAsWritten(batch, client, maxRetries, maxWorkers, first, retry).Success?
    ensures PoolSize(maxWorkers, |batch|).Success?
    ensures var cfg := RetryConfig(maxRetries.GetOr(DefaultMaxRetries), first, retry);
            var r := GenerateVllmAsWritten(batch, client, maxRetries, maxWorkers, first, retry).value;
            forall i :: 0 <= i < |batch| ==>
              RetryOutcome(ItemClient(client, batch[i]), NeedsRetry, cfg, r[i],
                           ProcessItemAsWritten(ItemClient(client, batch[i]), NeedsRetryAsWritten, cfg, 0).value.calls)
  {
    var cfg := RetryConfig(maxRetries.GetOr(DefaultMaxRetries), first, retry);
    forall x
      ensures NeedsRetryAsWritten(x).Success? ==> NeedsRetryAsWritten(x).value == NeedsRetry(x)
    {
      NeedsRetryRefinesAsWritten(x);
    }
    forall i | 0 <= i < |batch|
      ensures var run := ProcessItemAsWritten(ItemClient(client, batch[i]), NeedsRetryAsWritten, cfg, 0).value;
              RetryOutcome(ItemClient(client, batch[i]), NeedsRetry, cfg, run.result, run.calls)
    {
      ProcessItemAsWrittenRefines(ItemClient(client, batch[i]), NeedsRetryAsWritten, NeedsRetry, cfg);
    }
  }

  /** With the default budget, a one-page batch whose model answers with 51
      distinct characters raises instead of returning that answer. */
  lemma PlainPageRaisesAsWritten()
    ensures GenerateVllmAsWritten([0], (item: int, i: nat, s: Sampling) => Completion(DistinctText(51), 51),
                                  None, None, DefaultFirst, DefaultRetry) == Failure(UnexpectedKeyword)
  {
    var client := (item: int, i: nat, s: Sampling) => Completion(DistinctText(51), 51);
    var cfg := RetryConfig(DefaultMaxRetries, DefaultFirst, DefaultRetry);
    assert Attempt(ItemClient(client, 0), cfg, 0) == GenerationResult(DistinctText(51), 51, false);
    SuffixCheckRaises();
    assert ProcessItemAsWritten(ItemClient(client, 0), NeedsRetryAsWritten, cfg, 0) == Failure(UnexpectedKeyword);
  }

  /** `generate_vllm` with the intended retry test and pool size: fills in the
      defaults, sizes the pool, and runs the batch. */
  method GenerateVllm<T>(batch: seq<T>, client: (T, nat, Sampling) -> Reply,
                         maxRetries: Option<int>, maxWorkers: Option<int>,
                         first: Sampling, retry: Sampling)
    returns (r: Result<seq<GenerationResult>, Error>, calls: seq<seq<Sampling>>)
    ensures r.Success? <==> PoolSize(maxWorkers, |batch|).Success?
    ensures r.Failure? ==> r.error == NoWorkers
    ensures maxWorkers.None? ==> r.Success?
    ensures r.Success? ==> |r.value| == |batch| && |calls| == |batch|
    ensures r.Success? ==> forall i :: 0 <= i < |batch| ==>
      RetryOutcome(ItemClient(client, batch[i]), NeedsRetry,
                   RetryConfig(maxRetries.GetOr(DefaultMaxRetries), first, retry), r.value[i], |calls[i]|)
  {
    var pool := PoolSize(maxWorkers, |batch|);
    if pool.Failure? {
      return Failure(pool.error), [];
    }
    var cfg := RetryConfig(maxRetries.GetOr(DefaultMaxRetries), first, retry);
    var results;
    results, calls := ProcessBatch(batch, client, NeedsRetry, cfg);
    r := Success(results);
  }
}

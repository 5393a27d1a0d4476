/**
 * The hook as an object: its refs and React state are fields, and each
 * event it reacts to is a method that updates them in place. Every method
 * is proved to perform exactly the step of the pure state machine in module
 * `Scheduler`, so the lemmas proved there hold of the object.
 */
module PromptAnalysis {
  import opened Wrappers
  import opened JsString
  import opened Editor
  import opened Fingerprint
  import opened ResponseParser
  import opened AnalysisCache
  import Cadence
  import Scheduler

  class Coordinator {
    /** The key `useApiKey` supplies; it does not change while the hook is modelled. */
    const apiKey: Option<string>
    var analyses: seq<Analysis>
    var isAnalyzing: bool
    var error: Option<string>
    var lastAnalyzedContent: string
    var analysisQueue: Option<string>
    var isRequestInProgress: bool
    /** The content of the request being awaited, if any. */
    var awaiting: Option<string>
    /** The armed debounce timer (`debouncedAnalyze.timeoutId`), if any. */
    var timer: Option<Scheduler.Timer>
    var typingPattern: seq<int>
    var debounceTime: int
    /** The cache object: its keys in insertion order, and its entries. */
    var cacheKeys: seq<string>
    var cacheEntries: map<string, seq<Analysis>>

    /** The object's fields as a state of the pure machine. */
    ghost function Snapshot(): Scheduler.State
      reads this
    {
      Scheduler.State(apiKey, analyses, isAnalyzing, error, lastAnalyzedContent, analysisQueue,
        isRequestInProgress, awaiting, timer, typingPattern, debounceTime,
        Cache(cacheKeys, cacheEntries))
    }

    ghost predicate Valid()
      reads this
    {
      Scheduler.Inv(Snapshot())
    }

    constructor(apiKey: Option<string>)
      ensures Snapshot() == Scheduler.Initial(apiKey)
      ensures Valid()
    {
      this.apiKey := apiKey;
      analyses := [];
      isAnalyzing := false;
      error := None;
      lastAnalyzedContent := "";
      analysisQueue := None;
      isRequestInProgress := false;
      awaiting := None;
      timer := None;
      typingPattern := [];
      debounceTime := Cadence.InitialDelay;
      cacheKeys := [];
      cacheEntries := map[];
      new;
      Scheduler.InitialInv(apiKey);
    }

    /** An edit of the prompt. */
    method AnalyzePrompt(content: string, now: int)
      requires Valid()
      modifies this
      ensures Snapshot() == Scheduler.AnalyzePrompt(old(Snapshot()), content, now)
      ensures Valid()
    {
      Scheduler.AnalyzePromptInv(Snapshot(), content, now);
      if |Trim(content)| < Scheduler.MinContentLength {
        analyses := [];
        return;
      }
      if content == lastAnalyzedContent {
        return;
      }
      var contentHash := HashContent(content);
      if contentHash in cacheEntries {
        analyses := cacheEntries[contentHash];
        return;
      }
      DebouncedAnalyze(content, now);
    }

    /** Records the edit's timestamp and re-arms the timer with the current delay. */
    method DebouncedAnalyze(content: string, now: int)
      modifies this
      ensures Snapshot() == Scheduler.DebouncedAnalyze(old(Snapshot()), content, now)
    {
      typingPattern := typingPattern + [now];
      if |typingPattern| > Cadence.MaxSamples {
        typingPattern := typingPattern[|typingPattern| - Cadence.MaxSamples..];
      }
      timer := Some(Scheduler.Timer(content, debounceTime));
    }

    /** The debounce timer fires; returns the content of the request it sends, if any. */
    method TimerFire() returns (sent: Option<string>)
      requires Valid()
      modifies this
      ensures Scheduler.TimerFire(old(Snapshot())) == Scheduler.Step(Snapshot(), sent)
      ensures Valid()
    {
      Scheduler.TimerFireInv(Snapshot());
      if timer.None? {
        return None;
      }
      sent := RunTimer();
    }

    /** The armed timer's callback. */
    method RunTimer() returns (sent: Option<string>)
      requires timer.Some?
      modifies this
      ensures Scheduler.TimerFire(old(Snapshot())) == Scheduler.Step(Snapshot(), sent)
    {
      var content := timer.value.content;
      timer := None;
      if isRequestInProgress {
        analysisQueue := Some(content);
        sent := None;
      } else {
        sent := PerformAnalysis(content);
      }
    }

    /** `performAnalysis` up to its `await`; returns the content of the request it sends, if any. */
    method PerformAnalysis(content: string) returns (sent: Option<string>)
      requires !isRequestInProgress
      modifies this
      ensures Scheduler.PerformAnalysis(old(Snapshot()), content) == Scheduler.Step(Snapshot(), sent)
    {
      if content == lastAnalyzedContent {
        return None;
      }
      if |Trim(content)| < Scheduler.MinContentLength {
        analyses := [];
        return None;
      }
      sent := SendUnlessCached(content);
    }

    /** The cache and key checks of `performAnalysis`, then the start of the request. */
    method SendUnlessCached(content: string) returns (sent: Option<string>)
      requires !isRequestInProgress && content != lastAnalyzedContent && Scheduler.Analyzable(content)
      modifies this
      ensures Scheduler.PerformAnalysis(old(Snapshot()), content) == Scheduler.Step(Snapshot(), sent)
    {
      var contentHash := HashContent(content);
      if contentHash in cacheEntries {
        analyses := cacheEntries[contentHash];
        return None;
      }
      if apiKey.None? || apiKey.value == "" {
        analyses := [];
        return None;
      }
      isRequestInProgress := true;
      isAnalyzing := true;
      error := None;
      awaiting := Some(content);
      sent := Some(content);
    }

    /** The awaited call resolves with `response`; returns the request the drain sends, if any. */
    method RequestSucceeded(response: Scheduler.Response) returns (sent: Option<string>)
      requires Valid() && awaiting.Some?
      modifies this
      ensures Scheduler.Settle(old(Snapshot()), Scheduler.Resolved(response)) == Scheduler.Step(Snapshot(), sent)
      ensures Valid()
    {
      Scheduler.SettleInv(Snapshot(), Scheduler.Resolved(response));
      Resolve(response);
      ClearInFlight();
      sent := DrainQueue();
    }

    /** The `try` block after the `await`: record, parse, cache and publish. */
    method Resolve(response: Scheduler.Response)
      requires awaiting.Some?
      modifies this
      ensures Snapshot().(isAnalyzing := false, isRequestInProgress := false, awaiting := None)
        == Scheduler.Finish(old(Snapshot()), Scheduler.Resolved(response))
      ensures awaiting == old(awaiting)
    {
      var content := awaiting.value;
      lastAnalyzedContent := content;
      match response {
        case Unparsable =>
          error := Some(Scheduler.FailureMessage);
          analyses := [];
        case Parsed(payload) =>
          var newAnalyses := ParseAnalysisResponse(content, payload);
          var contentHash := HashContent(content);
          Store(contentHash, newAnalyses);
          analyses := newAnalyses;
      }
    }

    /** The cache update: the oldest key goes when the cache is full, then the entry is assigned. */
    method Store(contentHash: string, newAnalyses: seq<Analysis>)
      modifies this
      ensures Snapshot() == old(Snapshot()).(cache := Put(old(Snapshot()).cache, contentHash, newAnalyses))
    {
      if |cacheKeys| >= MaxCacheItems {
        var oldestKey := cacheKeys[0];
        cacheEntries := cacheEntries - {oldestKey};
        cacheKeys := cacheKeys[1..];
      }
      if contentHash !in cacheEntries {
        cacheKeys := cacheKeys + [contentHash];
      }
      cacheEntries := cacheEntries[contentHash := newAnalyses];
    }

    /** The awaited call is rejected; returns the request the drain sends, if any. */
    method RequestFailed() returns (sent: Option<string>)
      requires Valid() && awaiting.Some?
      modifies this
      ensures Scheduler.Settle(old(Snapshot()), Scheduler.Rejected) == Scheduler.Step(Snapshot(), sent)
      ensures Valid()
    {
      Scheduler.SettleInv(Snapshot(), Scheduler.Rejected);
      error := Some(Scheduler.FailureMessage);
      analyses := [];
      ClearInFlight();
      sent := DrainQueue();
    }

    /** The start of the `finally` block. */
    method ClearInFlight()
      modifies this
      ensures Snapshot() == old(Snapshot()).(isAnalyzing := false, isRequestInProgress := false, awaiting := None)
    {
      isAnalyzing := false;
      isRequestInProgress := false;
      awaiting := None;
    }

    /** The queue check at the end of the `finally` block. */
    method DrainQueue() returns (sent: Option<string>)
      requires !isRequestInProgress
      modifies this
      ensures Scheduler.Drain(old(Snapshot())) == Scheduler.Step(Snapshot(), sent)
    {
      sent := None;
      if analysisQueue.Some? && analysisQueue.value != "" {
        var queuedContent := analysisQueue.value;
        analysisQueue := None;
        sent := PerformAnalysis(queuedContent);
      }
    }

    /** The 5-second interval: the adaptive-delay adjustment. */
    method Tick()
      requires Valid()
      modifies this
      ensures Snapshot() == Scheduler.Tick(old(Snapshot()))
      ensures Valid()
    {
      Scheduler.TickInv(Snapshot());
      AdaptDelay();
    }

    /** `calculateAdaptiveDebounce` on the samples and the delay. */
    method AdaptDelay()
      modifies this
      ensures Snapshot() == Scheduler.Tick(old(Snapshot()))
    {
      var samples := typingPattern;
      if |samples| < Cadence.MinSamples {
        return;
      }
      var intervals := IntervalsOf(samples);
      var sum := SumOf(intervals);
      if sum < Cadence.FastInterval * |intervals| {
        debounceTime := Cadence.Min(Cadence.MaxDelay, debounceTime + Cadence.DelayStep);
      } else {
        debounceTime := Cadence.Max(Cadence.MinDelay, debounceTime - Cadence.DelayStep);
      }
      typingPattern := samples[|samples| - Cadence.MinSamples..];
    }
  }

  /** The tick's loop collecting the differences between consecutive timestamps. */
  method IntervalsOf(samples: seq<int>) returns (intervals: seq<int>)
    ensures intervals == Cadence.Intervals(samples)
  {
    intervals := [];
    if samples == [] {
      return;
    }
    for i := 1 to |samples|
      invariant intervals == Cadence.Intervals(samples[..i])
    {
      assert samples[..i + 1][..i] == samples[..i];
      intervals := intervals + [samples[i] - samples[i - 1]];
    }
    assert samples[..|samples|] == samples;
  }

  /** The sum the tick's `reduce` computes. */
  method SumOf(xs: seq<int>) returns (sum: int)
    ensures sum == Cadence.Sum(xs)
  {
    sum := 0;
    for j := 0 to |xs|
      invariant sum == Cadence.Sum(xs[..j])
    {
      assert xs[..j + 1][..j] == xs[..j];
      sum := sum + xs[j];
    }
    assert xs[..|xs|] == xs;
  }
}

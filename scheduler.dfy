/**
 * The request coordinator as a pure state machine. The hook's refs and its
 * React state form one `State`; every event the hook reacts to (an edit, the
 * debounce timer firing, the request settling, the 5-second tick) is a
 * function from the state before to the state after. `Coordinator` in
 * module `PromptAnalysis` performs the same steps in place.
 */
module Scheduler {
  import opened Wrappers
  import opened JsString
  import opened Editor
  import opened Fingerprint
  import opened ResponseParser
  import opened AnalysisCache
  import Cadence

  /** `MIN_CONTENT_LENGTH`: the shortest trimmed content worth analysing. */
  const MinContentLength := 15

  /** The one error text a failed analysis publishes. */
  const FailureMessage := "Failed to analyze prompt. Please try again."

  /** The pending debounce timer: the content it will analyse and the delay it was armed with. */
  datatype Timer = Timer(content: string, delay: int)

  /** What `JSON.parse` makes of the client's text. */
  datatype Response = Unparsable | Parsed(payload: Payload)

  /** How the awaited client call ends. */
  datatype Outcome = Resolved(response: Response) | Rejected

  datatype State = State(
    apiKey: Option<string>,
    analyses: seq<Analysis>,
    isAnalyzing: bool,
    error: Option<string>,
    lastAnalyzedContent: string,
    analysisQueue: Option<string>,
    isRequestInProgress: bool,
    /** The content of the request the hook is awaiting, if any. */
    awaiting: Option<string>,
    timer: Option<Timer>,
    typingPattern: seq<int>,
    debounceTime: int,
    cache: Cache)

  /** The state after a step, and the content of the request it sent, if it sent one. */
  datatype Step = Step(state: State, sent: Option<string>)

  /** Content whose trimmed length reaches `MIN_CONTENT_LENGTH`. */
  predicate Analyzable(content: string)
  {
    |Trim(content)| >= MinContentLength
  }

  /** `apiKey` is truthy: present and not the empty string. */
  predicate HasApiKey(apiKey: Option<string>)
  {
    apiKey.Some? && apiKey.value != ""
  }

  /** The hook's state when it mounts. */
  function Initial(apiKey: Option<string>): (s: State)
    ensures s.analyses == [] && s.error == None && s.timer == None && s.awaiting == None
    ensures s.debounceTime == Cadence.InitialDelay && s.cache == Empty
  {
    State(apiKey, [], false, None, "", None, false, None, None, [], Cadence.InitialDelay, Empty)
  }

  /**
   * The invariant of the coordinator: the delay and the sample list stay in
   * bounds, the cache is well formed, a request is in flight exactly when one
   * is awaited and `isAnalyzing` shows it, the queue slot is used only while
   * one is in flight, and whatever is pending or in flight is analysable.
   */
  ghost predicate Inv(s: State)
  {
    && Cadence.DelayInRange(s.debounceTime)
    && |s.typingPattern| <= Cadence.MaxSamples
    && Valid(s.cache)
    && (s.isRequestInProgress <==> s.awaiting.Some?)
    && s.isAnalyzing == s.isRequestInProgress
    && (s.analysisQueue.Some? ==> s.isRequestInProgress && Analyzable(s.analysisQueue.value))
    && (s.timer.Some? ==> Analyzable(s.timer.value.content) && Cadence.DelayInRange(s.timer.value.delay))
    && (s.awaiting.Some? ==> Analyzable(s.awaiting.value) && HasApiKey(s.apiKey))
    && (s.awaiting.Some? ==> FingerprintOf(s.awaiting.value) !in s.cache.entries)
  }

  /**
   * `debouncedAnalyze`: records the edit's timestamp and re-arms the single
   * timer for `content` with the delay current at this moment.
   */
  function DebouncedAnalyze(s: State, content: string, now: int): (r: State)
    ensures r.timer == Some(Timer(content, s.debounceTime))
    ensures r.typingPattern == Cadence.RecordEdit(s.typingPattern, now)
    ensures r == s.(timer := r.timer, typingPattern := r.typingPattern)
  {
    s.(typingPattern := Cadence.RecordEdit(s.typingPattern, now),
       timer := Some(Timer(content, s.debounceTime)))
  }

  /**
   * `analyzePrompt`: short content publishes no findings; content equal to
   * the last analysed one is ignored; a cache hit publishes the cached
   * findings; anything else goes to the debouncer.
   */
  function AnalyzePrompt(s: State, content: string, now: int): (r: State)
    ensures r == s.(analyses := r.analyses, timer := r.timer, typingPattern := r.typingPattern)
    ensures r.timer != s.timer ==> r.timer == Some(Timer(content, s.debounceTime))
  {
    if !Analyzable(content) then s.(analyses := [])
    else if content == s.lastAnalyzedContent then s
    else
      match Lookup(s.cache, FingerprintOf(content))
      case Some(cached) => s.(analyses := cached)
      case None => DebouncedAnalyze(s, content, now)
  }

  /**
   * `performAnalysis` up to its `await`: skips content equal to the last
   * analysed one, publishes nothing for short content, publishes a cache hit,
   * publishes nothing without an API key, and otherwise marks the request as
   * in flight and sends it. The hook calls it only when no request is in
   * flight.
   */
  function PerformAnalysis(s: State, content: string): (r: Step)
    requires !s.isRequestInProgress
    ensures r.sent.Some? <==>
      content != s.lastAnalyzedContent && Analyzable(content)
      && FingerprintOf(content) !in s.cache.entries && HasApiKey(s.apiKey)
    ensures r.sent.Some? ==>
      && r.sent == Some(content) && r.state.awaiting == Some(content)
      && r.state.isRequestInProgress && r.state.isAnalyzing && r.state.error == None
    ensures r.sent.None? ==> r.state == s.(analyses := r.state.analyses)
    ensures content == s.lastAnalyzedContent ==> r == Step(s, None)
    ensures content != s.lastAnalyzedContent && !Analyzable(content) ==> r == Step(s.(analyses := []), None)
    ensures content != s.lastAnalyzedContent && Analyzable(content) && FingerprintOf(content) in s.cache.entries ==>
      r == Step(s.(analyses := s.cache.entries[FingerprintOf(content)]), None)
    ensures (content != s.lastAnalyzedContent && Analyzable(content) && FingerprintOf(content) !in s.cache.entries &&
      !HasApiKey(s.apiKey)) ==> r == Step(s.(analyses := []), None)
    ensures r.state == s.(analyses := r.state.analyses, isAnalyzing := r.state.isAnalyzing,
      error := r.state.error, isRequestInProgress := r.state.isRequestInProgress,
      awaiting := r.state.awaiting)
  {
    if content == s.lastAnalyzedContent then Step(s, None)
    else if !Analyzable(content) then Step(s.(analyses := []), None)
    else
      match Lookup(s.cache, FingerprintOf(content))
      case Some(cached) => Step(s.(analyses := cached), None)
      case None =>
        if !HasApiKey(s.apiKey) then Step(s.(analyses := []), None)
        else
          Step(s.(isRequestInProgress := true, isAnalyzing := true, error := None,
                  awaiting := Some(content)), Some(content))
  }

  /**
   * The debounce timer's callback: with a request in flight the content
   * takes the one queue slot (overwriting what was there); otherwise it is
   * analysed now.
   */
  function TimerFire(s: State): (r: Step)
    ensures r.state.timer == None
    ensures s.timer.None? ==> r == Step(s, None)
    ensures s.timer.Some? && s.isRequestInProgress ==>
      r == Step(s.(timer := None, analysisQueue := Some(s.timer.value.content)), None)
    ensures r.sent.Some? ==> !s.isRequestInProgress && r.sent == Some(s.timer.value.content)
    ensures s.timer.Some? && !s.isRequestInProgress ==>
      r == PerformAnalysis(s.(timer := None), s.timer.value.content)
  {
    match s.timer
    case None => Step(s, None)
    case Some(t) =>
      var s1 := s.(timer := None);
      if s1.isRequestInProgress then Step(s1.(analysisQueue := Some(t.content)), None)
      else PerformAnalysis(s1, t.content)
  }

  /**
   * From any state of the coordinator: an armed timer that fires with nothing
   * in flight sends its content when the content is fresh, analysable,
   * uncached and an API key is present.
   */
  lemma IdleFireSends(s: State)
    requires Inv(s) && s.timer.Some? && !s.isRequestInProgress && HasApiKey(s.apiKey)
    requires s.timer.value.content != s.lastAnalyzedContent
    requires FingerprintOf(s.timer.value.content) !in s.cache.entries
    ensures TimerFire(s).sent == Some(s.timer.value.content)
    ensures TimerFire(s).state.awaiting == Some(s.timer.value.content)
  {
  }

  /**
   * The awaited call ends. A rejected call publishes the error and no
   * findings. A resolved one first records the content as last analysed;
   * text that does not parse then publishes the error, while a parsed
   * payload is stored in the cache and published. Either way the flags are
   * cleared (the `finally` block up to the queue check).
   */
  function Finish(s: State, outcome: Outcome): (r: State)
    requires s.awaiting.Some?
    ensures !r.isRequestInProgress && !r.isAnalyzing && r.awaiting == None
    ensures r == s.(analyses := r.analyses, error := r.error, lastAnalyzedContent := r.lastAnalyzedContent,
      cache := r.cache, isAnalyzing := false, isRequestInProgress := false, awaiting := None)
    ensures r.lastAnalyzedContent == if outcome.Rejected? then s.lastAnalyzedContent else s.awaiting.value
    ensures !(outcome.Resolved? && outcome.response.Parsed?) ==>
      r.cache == s.cache && r.error == Some(FailureMessage) && r.analyses == []
    ensures outcome.Resolved? && outcome.response.Parsed? ==>
      && r.analyses == ParseAnalysisResponse(s.awaiting.value, outcome.response.payload)
      && Lookup(r.cache, FingerprintOf(s.awaiting.value)) == Some(r.analyses)
      && r.error == s.error
  {
    var content := s.awaiting.value;
    var settled :=
      match outcome
      case Rejected => s.(error := Some(FailureMessage), analyses := [])
      case Resolved(Unparsable) =>
        s.(lastAnalyzedContent := content, error := Some(FailureMessage), analyses := [])
      case Resolved(Parsed(payload)) =>
        var found := ParseAnalysisResponse(content, payload);
        s.(lastAnalyzedContent := content, cache := Put(s.cache, FingerprintOf(content), found),
           analyses := found);
    settled.(isAnalyzing := false, isRequestInProgress := false, awaiting := None)
  }

  /** The end of the `finally` block: a non-empty queued content is taken from the slot and analysed. */
  function Drain(s: State): (r: Step)
    requires !s.isRequestInProgress
    ensures s.analysisQueue != Some("") ==> r.state.analysisQueue == None
    ensures r.sent.Some? <==> r.state.isRequestInProgress
    ensures r.sent.Some? ==> r.sent == s.analysisQueue
    ensures r.state.cache == s.cache && r.state.timer == s.timer
    ensures r.state.lastAnalyzedContent == s.lastAnalyzedContent
  {
    match s.analysisQueue
    case Some(queued) =>
      if queued != "" then PerformAnalysis(s.(analysisQueue := None), queued)
      else Step(s, None)
    case None => Step(s, None)
  }

  /** The awaited request settles: its outcome is applied, then the queue is drained. */
  function Settle(s: State, outcome: Outcome): (r: Step)
    requires s.awaiting.Some?
    ensures s.analysisQueue != Some("") ==> r.state.analysisQueue == None
    ensures r.sent.Some? <==> r.state.isRequestInProgress
    ensures r.sent.Some? ==> r.sent == s.analysisQueue
    ensures r.state.timer == s.timer
  {
    Drain(Finish(s, outcome))
  }

  /** The 5-second interval: the adaptive-delay tick on the hook's samples and delay. */
  function Tick(s: State): (r: State)
    ensures r == s.(typingPattern := r.typingPattern, debounceTime := r.debounceTime)
    ensures Cadence.DelayInRange(s.debounceTime) ==> Cadence.DelayInRange(r.debounceTime)
  {
    var t := Cadence.Tick(Cadence.Tuning(s.typingPattern, s.debounceTime));
    s.(typingPattern := t.samples, debounceTime := t.delay)
  }

  // ----- The invariant is established and kept by every step -----

  lemma AnalyzableNonEmpty(content: string)
    requires Analyzable(content)
    ensures content != "" && |content| >= MinContentLength
  {
  }

  lemma InitialInv(apiKey: Option<string>)
    ensures Inv(Initial(apiKey))
  {
  }

  lemma AnalyzePromptInv(s: State, content: string, now: int)
    requires Inv(s)
    ensures Inv(AnalyzePrompt(s, content, now))
  {
    if !Analyzable(content) || content == s.lastAnalyzedContent || FingerprintOf(content) in s.cache.entries {
      var r := AnalyzePrompt(s, content, now);
      assert r == s.(analyses := r.analyses);
    } else {
      DebouncedAnalyzeInv(s, content, now);
    }
  }

  /** Re-arming the timer for analysable content keeps the invariant. */
  lemma DebouncedAnalyzeInv(s: State, content: string, now: int)
    requires Inv(s) && Analyzable(content)
    ensures Inv(DebouncedAnalyze(s, content, now))
  {
  }

  /**
   * `performAnalysis` keeps the invariant, and sends a request exactly when
   * it leaves one in flight, for the content it was given.
   */
  lemma PerformAnalysisInv(s: State, content: string)
    requires Inv(s) && !s.isRequestInProgress
    ensures Inv(PerformAnalysis(s, content).state)
    ensures PerformAnalysis(s, content).sent.Some? <==> PerformAnalysis(s, content).state.isRequestInProgress
    ensures PerformAnalysis(s, content).sent.Some? ==>
      PerformAnalysis(s, content).sent == Some(content) == PerformAnalysis(s, content).state.awaiting
  {
  }

  /**
   * A timer firing keeps the invariant and never sends a second request:
   * if it sends one, none was in flight, and the new one is the timer's.
   */
  lemma TimerFireInv(s: State)
    requires Inv(s)
    ensures Inv(TimerFire(s).state)
    ensures TimerFire(s).sent.Some? ==>
      !s.isRequestInProgress && s.timer.Some? && TimerFire(s).sent == Some(s.timer.value.content)
      && TimerFire(s).state.awaiting == TimerFire(s).sent
  {
    if s.timer.Some? && !s.isRequestInProgress {
      PerformAnalysisInv(s.(timer := None), s.timer.value.content);
    }
  }

  /** Between the end of a request and the queue check: no request in flight, a queued content still analysable. */
  ghost predicate Idle(s: State)
  {
    && Inv(s.(analysisQueue := None))
    && !s.isRequestInProgress
    && (s.analysisQueue.Some? ==> Analyzable(s.analysisQueue.value))
  }

  /**
   * Applying the outcome leaves no request in flight and keeps the cache
   * well formed; the timer, queue, samples and delay are untouched.
   */
  lemma FinishIdle(s: State, outcome: Outcome)
    requires Inv(s) && s.awaiting.Some?
    ensures Idle(Finish(s, outcome))
    ensures Finish(s, outcome).analysisQueue == s.analysisQueue
    ensures Finish(s, outcome).timer == s.timer
  {
    var content := s.awaiting.value;
    if outcome.Resolved? && outcome.response.Parsed? {
      PutValid(s.cache, FingerprintOf(content), ParseAnalysisResponse(content, outcome.response.payload));
    }
  }

  /**
   * Draining restores the invariant with the slot empty, and a request it
   * sends is the queued content and the only one in flight.
   */
  lemma DrainInv(s: State)
    requires Idle(s)
    ensures Inv(Drain(s).state)
    ensures Drain(s).state.analysisQueue == None
    ensures Drain(s).sent.Some? ==> s.analysisQueue == Drain(s).sent == Drain(s).state.awaiting
    ensures s.analysisQueue.None? ==> Drain(s) == Step(s, None)
    ensures Drain(s).state.cache == s.cache && Drain(s).state.lastAnalyzedContent == s.lastAnalyzedContent
    ensures Drain(s).state.timer == s.timer
  {
    if s.analysisQueue.Some? {
      AnalyzableNonEmpty(s.analysisQueue.value);
      PerformAnalysisInv(s.(analysisQueue := None), s.analysisQueue.value);
    }
  }

  /**
   * Settling keeps the invariant, and a request it sends is the queued
   * content and the only one in flight.
   */
  lemma SettleInv(s: State, outcome: Outcome)
    requires Inv(s) && s.awaiting.Some?
    ensures Inv(Settle(s, outcome).state)
    ensures Settle(s, outcome).sent.Some? ==>
      s.analysisQueue == Settle(s, outcome).sent == Settle(s, outcome).state.awaiting
  {
    FinishIdle(s, outcome);
    DrainInv(Finish(s, outcome));
  }

  lemma TickInv(s: State)
    requires Inv(s)
    ensures Inv(Tick(s))
    ensures Tick(s).timer == s.timer && Tick(s).analysisQueue == s.analysisQueue
  {
    Cadence.TickKeepsBounds(Cadence.Tuning(s.typingPattern, s.debounceTime));
  }

  // ----- Every reachable state satisfies the invariant -----

  /** An event the hook reacts to. */
  datatype Event =
    | Edit(content: string, now: int)
    | Fire
    | Settled(outcome: Outcome)
    | Interval

  /**
   * One event. A settlement arrives only while a request is awaited; one
   * delivered at any other time is ignored.
   */
  function Apply(s: State, e: Event): (r: Step)
    ensures (e.Edit? || e.Interval?) ==> r.sent == None
    ensures r.sent.Some? ==> r.state.isRequestInProgress
    ensures r.state.apiKey == s.apiKey
    ensures Cadence.DelayInRange(s.debounceTime) ==> Cadence.DelayInRange(r.state.debounceTime)
  {
    match e
    case Edit(content, now) => Step(AnalyzePrompt(s, content, now), None)
    case Fire => TimerFire(s)
    case Settled(outcome) => if s.awaiting.Some? then Settle(s, outcome) else Step(s, None)
    case Interval => Step(Tick(s), None)
  }

  /** The state after a sequence of events. */
  function Run(s: State, events: seq<Event>): (r: State)
    ensures r.apiKey == s.apiKey
    ensures Cadence.DelayInRange(s.debounceTime) ==> Cadence.DelayInRange(r.debounceTime)
    decreases |events|
  {
    if events == [] then s else Run(Apply(s, events[0]).state, events[1..])
  }

  lemma ApplyInv(s: State, e: Event)
    requires Inv(s)
    ensures Inv(Apply(s, e).state)
    ensures Apply(s, e).sent.Some? ==>
      (e.Fire? && !s.isRequestInProgress) || (e.Settled? && s.awaiting.Some?)
    ensures Apply(s, e).sent.Some? ==> Apply(s, e).state.awaiting == Apply(s, e).sent
  {
    match e
    case Edit(content, now) => AnalyzePromptInv(s, content, now);
    case Fire => TimerFireInv(s);
    case Settled(outcome) => if s.awaiting.Some? { SettleInv(s, outcome); }
    case Interval => TickInv(s);
  }

  /**
   * From mount, whatever the events: the delay stays in [500, 1200] on the
   * 50 ms grid, at most 20 samples and 20 cache entries are kept, and at
   * most one request is in flight, the one awaited.
   */
  lemma {:induction false} RunInv(s: State, events: seq<Event>)
    requires Inv(s)
    ensures Inv(Run(s, events))
    decreases |events|
  {
    if events != [] {
      ApplyInv(s, events[0]);
      RunInv(Apply(s, events[0]).state, events[1..]);
    }
  }

  lemma ReachableInv(apiKey: Option<string>, events: seq<Event>)
    ensures var s := Run(Initial(apiKey), events);
      && Cadence.DelayInRange(s.debounceTime)
      && |s.cache.keys| <= MaxCacheItems
      && (s.isRequestInProgress <==> s.awaiting.Some?)
  {
    InitialInv(apiKey);
    RunInv(Initial(apiKey), events);
  }

  // ----- What an edit does -----

  /** Short content publishes no findings and leaves the timer, queue, flight and cache alone. */
  lemma ShortContentOnlyPublishes(s: State, content: string, now: int)
    requires !Analyzable(content)
    ensures AnalyzePrompt(s, content, now) == s.(analyses := [])
  {
  }

  /** Content equal to the last analysed one changes nothing at all. */
  lemma SameContentIgnored(s: State, content: string, now: int)
    requires content == s.lastAnalyzedContent
    ensures !Analyzable(content) || AnalyzePrompt(s, content, now) == s
  {
  }

  /** A cache hit publishes the cached findings and changes nothing else. */
  lemma CacheHitPublishes(s: State, content: string, now: int)
    requires Analyzable(content) && content != s.lastAnalyzedContent
    requires FingerprintOf(content) in s.cache.entries
    ensures AnalyzePrompt(s, content, now) == s.(analyses := s.cache.entries[FingerprintOf(content)])
  {
  }

  /**
   * Any other edit replaces the pending timer by one for this content, at
   * the delay current now, and records the edit's timestamp.
   */
  lemma EditArmsTimer(s: State, content: string, now: int)
    requires Analyzable(content) && content != s.lastAnalyzedContent
    requires FingerprintOf(content) !in s.cache.entries
    ensures AnalyzePrompt(s, content, now).timer == Some(Timer(content, s.debounceTime))
    ensures AnalyzePrompt(s, content, now).typingPattern[|AnalyzePrompt(s, content, now).typingPattern| - 1] == now
    ensures AnalyzePrompt(s, content, now).analyses == s.analyses
    ensures AnalyzePrompt(s, content, now).analysisQueue == s.analysisQueue
  {
  }

  /** Of two edits in a row that both reach the debouncer, only the second stays pending. */
  lemma DebounceLatestWins(s: State, first: string, second: string, t1: int, t2: int)
    requires Inv(s)
    requires Analyzable(first) && first != s.lastAnalyzedContent
    requires FingerprintOf(first) !in s.cache.entries
    requires Analyzable(second) && second != s.lastAnalyzedContent
    requires FingerprintOf(second) !in s.cache.entries
    ensures AnalyzePrompt(AnalyzePrompt(s, first, t1), second, t2).timer == Some(Timer(second, s.debounceTime))
  {
  }

  // ----- The queue slot -----

  /** A timer firing during a request takes the queue slot and sends nothing. */
  lemma FireWhileBusyQueues(s: State)
    requires s.timer.Some? && s.isRequestInProgress
    ensures TimerFire(s).sent == None
    ensures TimerFire(s).state == s.(timer := None, analysisQueue := Some(s.timer.value.content))
  {
  }

  /** Of two timers that fire during one request, the second one's content holds the slot. */
  lemma QueueLatestWins(s: State, first: Timer, second: Timer)
    requires s.isRequestInProgress
    ensures var s1 := TimerFire(s.(timer := Some(first))).state;
      TimerFire(s1.(timer := Some(second))).state.analysisQueue == Some(second.content)
  {
  }

  /**
   * When the request settles, the queue slot is emptied and a request, if
   * one is sent, is for the queued content; one that was overwritten in the
   * slot is never sent.
   */
  lemma SettleDrainsQueue(s: State, outcome: Outcome)
    requires Inv(s) && s.awaiting.Some? && s.analysisQueue.Some?
    ensures Settle(s, outcome).state.analysisQueue == None
    ensures Settle(s, outcome).sent.Some? ==> Settle(s, outcome).sent == s.analysisQueue
  {
    FinishIdle(s, outcome);
    DrainInv(Finish(s, outcome));
  }

  /** Two racing edits: the first is in flight, the second queued, so the second is what is issued next. */
  lemma RacingEditsIssueSecond(s: State, second: Timer, outcome: Outcome)
    requires Inv(s) && s.awaiting.Some? && Analyzable(second.content)
    requires FingerprintOf(second.content) != FingerprintOf(s.awaiting.value)
    requires FingerprintOf(second.content) !in s.cache.entries
    requires second.content != s.lastAnalyzedContent
    ensures var queued := TimerFire(s.(timer := Some(second))).state;
      && queued.analysisQueue == Some(second.content)
      && Settle(queued, outcome).sent == Some(second.content)
  {
    var queued := TimerFire(s.(timer := Some(second))).state;
    assert queued == s.(timer := None, analysisQueue := Some(second.content));
    FinishKeepsFresh(queued, outcome, second.content);
    AnalyzableNonEmpty(second.content);
    var settled := Finish(queued, outcome);
    assert Drain(settled) == PerformAnalysis(settled.(analysisQueue := None), second.content);
  }

  /** Settling a request leaves content with another fingerprint unanalysed and uncached. */
  lemma FinishKeepsFresh(q: State, outcome: Outcome, content: string)
    requires q.awaiting.Some? && FingerprintOf(content) != FingerprintOf(q.awaiting.value)
    requires FingerprintOf(content) !in q.cache.entries && content != q.lastAnalyzedContent
    ensures var f := Finish(q, outcome);
      && f.lastAnalyzedContent != content && FingerprintOf(content) !in f.cache.entries
      && f.apiKey == q.apiKey && f.analysisQueue == q.analysisQueue && !f.isRequestInProgress
  {
    match outcome
    case Rejected =>
    case Resolved(Unparsable) =>
    case Resolved(Parsed(payload)) =>
      var key := FingerprintOf(q.awaiting.value);
      assert Finish(q, outcome).cache == Put(q.cache, key, ParseAnalysisResponse(q.awaiting.value, payload));
  }

  // ----- How a request settles -----

  /** Success records the content, stores the parsed findings under its fingerprint and publishes them. */
  lemma SettleSuccess(s: State, payload: Payload)
    requires Inv(s) && s.awaiting.Some?
    ensures var r := Settle(s, Resolved(Parsed(payload))).state;
      var content := s.awaiting.value;
      var found := ParseAnalysisResponse(content, payload);
      && r.lastAnalyzedContent == content
      && Lookup(r.cache, FingerprintOf(content)) == Some(found)
      && |r.cache.keys| <= MaxCacheItems
      && (s.analysisQueue.None? ==> r.analyses == found && r.error == s.error && !r.isRequestInProgress)
  {
    var content := s.awaiting.value;
    var f := Finish(s, Resolved(Parsed(payload)));
    PutLookup(s.cache, FingerprintOf(content), ParseAnalysisResponse(content, payload));
    PutValid(s.cache, FingerprintOf(content), ParseAnalysisResponse(content, payload));
    FinishIdle(s, Resolved(Parsed(payload)));
    DrainInv(f);
  }

  /**
   * The fingerprint of the awaited content is never in the cache, so a
   * completed analysis always inserts a new key: below capacity it is
   * appended, at capacity exactly the oldest key is evicted first, and every
   * other entry survives.
   */
  lemma SettleEvictsOldest(s: State, payload: Payload)
    requires Inv(s) && s.awaiting.Some?
    ensures var r := Settle(s, Resolved(Parsed(payload))).state;
      var key := FingerprintOf(s.awaiting.value);
      && r.cache.keys == (if |s.cache.keys| == MaxCacheItems then s.cache.keys[1..] else s.cache.keys) + [key]
      && forall k :: k in s.cache.entries && (|s.cache.keys| < MaxCacheItems || k != s.cache.keys[0]) ==>
           Lookup(r.cache, k) == Lookup(s.cache, k)
  {
    var content := s.awaiting.value;
    PutFresh(s.cache, FingerprintOf(content), ParseAnalysisResponse(content, payload));
    FinishIdle(s, Resolved(Parsed(payload)));
    DrainInv(Finish(s, Resolved(Parsed(payload))));
  }

  /** A failed call publishes the error and no findings, and leaves the last analysed content and the cache alone. */
  lemma SettleFailure(s: State)
    requires Inv(s) && s.awaiting.Some?
    ensures var r := Settle(s, Rejected).state;
      && r.lastAnalyzedContent == s.lastAnalyzedContent
      && r.cache == s.cache
      && (s.analysisQueue.None? ==> r.analyses == [] && r.error == Some(FailureMessage) && !r.isAnalyzing)
  {
    FinishIdle(s, Rejected);
    DrainInv(Finish(s, Rejected));
  }

  /**
   * A response that does not parse still records the content as last
   * analysed, writes nothing to the cache, and publishes the error.
   */
  lemma SettleUnparsable(s: State)
    requires Inv(s) && s.awaiting.Some?
    ensures var r := Settle(s, Resolved(Unparsable)).state;
      && r.lastAnalyzedContent == s.awaiting.value
      && r.cache == s.cache
      && (s.analysisQueue.None? ==> r.analyses == [] && r.error == Some(FailureMessage))
  {
    FinishIdle(s, Resolved(Unparsable));
    DrainInv(Finish(s, Resolved(Unparsable)));
  }

  /**
   * Because of that, editing back to content whose response did not parse
   * is ignored: the error and the empty findings stay.
   */
  lemma UnparsableIsSticky(s: State, now: int)
    requires Inv(s) && s.awaiting.Some?
    ensures var r := Settle(s, Resolved(Unparsable)).state;
      AnalyzePrompt(r, s.awaiting.value, now) == r
  {
    FinishIdle(s, Resolved(Unparsable));
    DrainInv(Finish(s, Resolved(Unparsable)));
  }

  /**
   * That stickiness lasts only until another request resolves: once a
   * request for other content resolves, parsed or not, editing back to
   * content whose key is not cached arms the timer for it again.
   */
  lemma StickyEnds(t: State, content: string, response: Response, now: int)
    requires Inv(t) && t.awaiting.Some? && t.awaiting.value != content
    requires Analyzable(content) && FingerprintOf(content) !in t.cache.entries
    requires FingerprintOf(content) != FingerprintOf(t.awaiting.value)
    ensures var r := Settle(t, Resolved(response)).state;
      AnalyzePrompt(r, content, now).timer == Some(Timer(content, r.debounceTime))
  {
    var f := Finish(t, Resolved(response));
    assert f.lastAnalyzedContent == t.awaiting.value;
    assert FingerprintOf(content) !in f.cache.entries by {
      match response
      case Unparsable =>
      case Parsed(payload) =>
        assert f.cache == Put(t.cache, FingerprintOf(t.awaiting.value), ParseAnalysisResponse(t.awaiting.value, payload));
    }
    var r := Drain(f).state;
    assert Lookup(r.cache, FingerprintOf(content)) == None;
    assert AnalyzePrompt(r, content, now) == DebouncedAnalyze(r, content, now);
  }

  // ----- A name inherited from Object.prototype -----

  /**
   * The content "propertyIsEnumerable" passes the length check, is its own
   * fingerprint, and is an inherited member of the cache object: as written
   * the first edit to it publishes that function as the findings and never
   * reaches the debouncer, while with the own-entry lookup it arms the timer.
   */
  lemma InheritedNameFalseHit(apiKey: Option<string>, now: int)
    ensures Analyzable("propertyIsEnumerable")
    ensures FingerprintOf("propertyIsEnumerable") == "propertyIsEnumerable"
    ensures LookupAsWritten(Initial(apiKey).cache, "propertyIsEnumerable")
      == Some(Inherited("propertyIsEnumerable"))
    ensures AnalyzePrompt(Initial(apiKey), "propertyIsEnumerable", now).timer
      == Some(Timer("propertyIsEnumerable", Cadence.InitialDelay))
  {
    var name := "propertyIsEnumerable";
    InheritedNameHit(name);
    assert |name| == 20 && name[0] == 'p' && name[19] == 'e';
    TrimUnchanged(name);
  }

  // ----- A session -----

  /**
   * From mount with an API key: a short prompt publishes no findings and
   * arms nothing; once the prompt has grown to at least fifteen characters
   * (neither end being whitespace), an edit arms the timer at the initial
   * delay, and its firing sends exactly one request, for that content.
   */
  lemma GrowingPromptScenario(apiKey: Option<string>, short: string, long: string, t1: int, t2: int)
    requires HasApiKey(apiKey)
    requires |short| < MinContentLength
    requires |long| >= MinContentLength && !IsJsWhitespace(long[0]) && !IsJsWhitespace(long[|long| - 1])
    ensures var s1 := AnalyzePrompt(Initial(apiKey), short, t1);
      var s2 := AnalyzePrompt(s1, long, t2);
      var fired := TimerFire(s2);
      && s1.analyses == [] && s1.timer == None
      && s2.timer == Some(Timer(long, Cadence.InitialDelay))
      && fired.sent == Some(long)
      && fired.state.isAnalyzing && fired.state.timer == None
  {
    var s0 := Initial(apiKey);
    assert !Analyzable(short);
    var s1 := AnalyzePrompt(s0, short, t1);
    assert s1 == s0;
    TrimUnchanged(long);
    assert Analyzable(long) && long != s0.lastAnalyzedContent;
    EditArmsTimer(s1, long, t2);
  }

  // ----- The adaptive delay as the hook sees it -----

  /**
   * The tick leaves the timer alone; a timer armed after it uses the new
   * delay, while one armed before keeps its own.
   */
  lemma TickThenEdit(s: State, content: string, now: int)
    requires Analyzable(content) && content != s.lastAnalyzedContent
    requires FingerprintOf(content) !in s.cache.entries
    ensures Tick(s).timer == s.timer
    ensures AnalyzePrompt(Tick(s), content, now).timer == Some(Timer(content, Tick(s).debounceTime))
  {
  }
}

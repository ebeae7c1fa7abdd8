/**
 * The two playback promises of the page. Each wraps a promise that settles
 * at most once; whichever browser callback (or the fallback's timer) calls
 * resolve or reject first decides it, and every later call is ignored.
 *
 * - The primary attempt (`playBase64Audio`) resolves on `ended` and rejects
 *   on a rejected `play()` or on `error`. On `error` it rejects FIRST and
 *   only then starts the fallback, whose later resolve or reject is handed
 *   to the already settled promise and so changes nothing.
 * - The fallback (`tryAlternativePlay`) resolves when the `play()` issued
 *   on `canplaythrough` resolves, and rejects when that `play()` rejects,
 *   on `error`, or when its 5000 ms timer fires.
 *
 * Browser callbacks are modelled as a sequence of events; time passes in
 * Elapsed(ms) events.
 */
module Playback {
  import opened Wrappers

  /** Why a playback promise was rejected. */
  datatype Failure =
    | NotInBrowser        // there is no window
    | PlayFailed          // the primary play() promise rejected (autoplay blocked, say)
    | PlaybackError       // the primary element fired `error`
    | NoAudioContext      // constructing the fallback's AudioContext threw
    | FallbackPlayFailed  // the fallback's play() promise rejected
    | FallbackFailed      // the fallback element fired `error`
    | FallbackTimedOut    // the fallback's timer fired

  datatype Outcome = Resolved | Rejected(failure: Failure)

  /** The delay passed to the fallback's setTimeout, in milliseconds. */
  const FallbackTimeoutMs: nat := 5000

  /** The first resolve or reject wins. */
  function Settle(settled: Option<Outcome>, o: Outcome): (r: Option<Outcome>)
    ensures r.Some?
    ensures settled.Some? ==> r == settled
    ensures settled.None? ==> r == Some(o)
  {
    if settled.None? then Some(o) else settled
  }

  // ---------------------------------------------------------------- fallback

  datatype FallbackEvent =
    | CanPlayThrough        // the element is ready; the listener calls play()
    | FallbackPlayResolved  // that play() promise resolved
    | FallbackPlayRejected  // that play() promise rejected
    | FallbackError         // the element fired `error`
    | Elapsed(ms: nat)      // time passed

  /**
   * `listening` says whether the listeners and the timer were installed;
   * `playRequested` whether a play() has been issued; `elapsed` is the time
   * since the timer was set and `timerFired` whether it has fired.
   */
  datatype FallbackState = FallbackState(
    source: string,
    settled: Option<Outcome>,
    listening: bool,
    playRequested: bool,
    elapsed: nat,
    timerFired: bool)

  /** The state right after `tryAlternativePlay(source)` returns. */
  function FallbackStart(source: string, inBrowser: bool, hasAudioContext: bool): FallbackState {
    if !inBrowser then FallbackState(source, Some(Rejected(NotInBrowser)), false, false, 0, false)
    else if !hasAudioContext then FallbackState(source, Some(Rejected(NoAudioContext)), false, false, 0, false)
    else FallbackState(source, None, true, false, 0, false)
  }

  function FallbackStep(s: FallbackState, e: FallbackEvent): FallbackState {
    if !s.listening then s
    else match e
      case CanPlayThrough => s.(playRequested := true)
      case FallbackPlayResolved =>
        if s.playRequested then s.(settled := Settle(s.settled, Resolved)) else s
      case FallbackPlayRejected =>
        if s.playRequested then s.(settled := Settle(s.settled, Rejected(FallbackPlayFailed))) else s
      case FallbackError => s.(settled := Settle(s.settled, Rejected(FallbackFailed)))
      case Elapsed(ms) =>
        var t := s.elapsed + ms;
        if !s.timerFired && t >= FallbackTimeoutMs then
          s.(elapsed := t, timerFired := true, settled := Settle(s.settled, Rejected(FallbackTimedOut)))
        else s.(elapsed := t)
  }

  function FallbackRun(s: FallbackState, events: seq<FallbackEvent>): FallbackState
    decreases |events|
  {
    if events == [] then s else FallbackRun(FallbackStep(s, events[0]), events[1..])
  }

  function TotalElapsed(events: seq<FallbackEvent>): nat
    decreases |events|
  {
    if events == [] then 0
    else (if events[0].Elapsed? then events[0].ms else 0) + TotalElapsed(events[1..])
  }

  /** Once settled, the fallback promise never changes. */
  lemma {:induction false} FallbackSettlesOnce(s: FallbackState, events: seq<FallbackEvent>)
    requires s.settled.Some?
    ensures FallbackRun(s, events).settled == s.settled
    decreases |events|
  {
    if events != [] {
      FallbackSettlesOnce(FallbackStep(s, events[0]), events[1..]);
    }
  }

  /** The timer is armed until 5000 ms have elapsed, and a fired timer has settled the promise. */
  ghost predicate TimerInvariant(s: FallbackState) {
    s.listening
    && (s.timerFired <==> s.elapsed >= FallbackTimeoutMs)
    && (s.timerFired ==> s.settled.Some?)
  }

  lemma {:induction false} FallbackRunTimer(s: FallbackState, events: seq<FallbackEvent>)
    requires TimerInvariant(s)
    ensures TimerInvariant(FallbackRun(s, events))
    ensures FallbackRun(s, events).elapsed == s.elapsed + TotalElapsed(events)
    decreases |events|
  {
    if events != [] {
      FallbackRunTimer(FallbackStep(s, events[0]), events[1..]);
    }
  }

  /**
   * The bounded wait: once 5000 ms have elapsed the fallback has settled,
   * whatever else happened.
   */
  lemma FallbackSettlesByTimeout(source: string, events: seq<FallbackEvent>)
    requires TotalElapsed(events) >= FallbackTimeoutMs
    ensures FallbackRun(FallbackStart(source, true, true), events).settled.Some?
  {
    FallbackRunTimer(FallbackStart(source, true, true), events);
  }

  /** A `canplaythrough` at some index followed later by a resolved play(). */
  ghost predicate PlayedAfterReady(events: seq<FallbackEvent>) {
    exists i, j :: 0 <= i < j < |events| && events[i] == CanPlayThrough && events[j] == FallbackPlayResolved
  }

  /**
   * A run that ends resolved without starting resolved saw a resolved
   * play() either after a play() had already been requested, or after a
   * `canplaythrough` in the events themselves.
   */
  lemma {:induction false} FallbackRunResolvesInOrder(s: FallbackState, events: seq<FallbackEvent>)
    requires s.settled != Some(Resolved)
    ensures FallbackRun(s, events).settled == Some(Resolved) ==>
      (s.playRequested && FallbackPlayResolved in events) || PlayedAfterReady(events)
    decreases |events|
  {
    if events != [] {
      var t := FallbackStep(s, events[0]);
      if t.settled == Some(Resolved) {
        assert events[0] == FallbackPlayResolved && s.playRequested;
      } else {
        FallbackRunResolvesInOrder(t, events[1..]);
        var rest := events[1..];
        if FallbackRun(t, rest).settled == Some(Resolved) {
          if PlayedAfterReady(rest) {
            var i, j :| 0 <= i < j < |rest| && rest[i] == CanPlayThrough && rest[j] == FallbackPlayResolved;
            assert events[i + 1] == CanPlayThrough && events[j + 1] == FallbackPlayResolved;
          } else if !s.playRequested {
            assert t.playRequested && FallbackPlayResolved in rest;
            var j :| 0 <= j < |rest| && rest[j] == FallbackPlayResolved;
            assert events[0] == CanPlayThrough && events[j + 1] == FallbackPlayResolved;
          } else {
            var j :| 0 <= j < |rest| && rest[j] == FallbackPlayResolved;
            assert events[j + 1] == FallbackPlayResolved;
          }
        }
      }
    }
  }

  /** The fallback succeeds only after `canplaythrough` was seen and a later play() resolved. */
  lemma FallbackResolvesOnlyWhenPlaying(source: string, events: seq<FallbackEvent>)
    requires FallbackRun(FallbackStart(source, true, true), events).settled == Some(Resolved)
    ensures CanPlayThrough in events && FallbackPlayResolved in events
    ensures PlayedAfterReady(events)
  {
    FallbackRunResolvesInOrder(FallbackStart(source, true, true), events);
  }

  /**
   * The outcome the fallback promise should have by the events alone: the
   * first of a play() issued after `canplaythrough` resolving or rejecting,
   * `error`, or the elapsed time reaching 5000 ms. `requested` says whether
   * `canplaythrough` has been seen and `elapsed` how much time has passed.
   */
  function FirstFallbackSignal(events: seq<FallbackEvent>, requested: bool, elapsed: nat): Option<Outcome>
    decreases |events|
  {
    if events == [] then None
    else
      var rest := events[1..];
      match events[0]
      case CanPlayThrough => FirstFallbackSignal(rest, true, elapsed)
      case FallbackPlayResolved =>
        if requested then Some(Resolved) else FirstFallbackSignal(rest, requested, elapsed)
      case FallbackPlayRejected =>
        if requested then Some(Rejected(FallbackPlayFailed)) else FirstFallbackSignal(rest, requested, elapsed)
      case FallbackError => Some(Rejected(FallbackFailed))
      case Elapsed(ms) =>
        if elapsed + ms >= FallbackTimeoutMs then Some(Rejected(FallbackTimedOut))
        else FirstFallbackSignal(rest, requested, elapsed + ms)
  }

  lemma {:induction false} FallbackRunOutcome(s: FallbackState, events: seq<FallbackEvent>)
    requires s.listening && s.settled.None? && !s.timerFired && s.elapsed < FallbackTimeoutMs
    ensures FallbackRun(s, events).settled == FirstFallbackSignal(events, s.playRequested, s.elapsed)
    decreases |events|
  {
    if events != [] {
      var t := FallbackStep(s, events[0]);
      if t.settled.Some? {
        FallbackSettlesOnce(t, events[1..]);
      } else {
        FallbackRunOutcome(t, events[1..]);
      }
    }
  }

  /**
   * The fallback is decided by whichever comes first: play() after
   * `canplaythrough` (resolve, or reject when it fails), `error` (reject)
   * or the 5000 ms timer (reject); every later signal is ignored.
   */
  lemma FallbackOutcomeIsFirstSignal(source: string, events: seq<FallbackEvent>)
    ensures FallbackRun(FallbackStart(source, true, true), events).settled == FirstFallbackSignal(events, false, 0)
  {
    FallbackRunOutcome(FallbackStart(source, true, true), events);
  }

  lemma {:induction false} FirstSignalWithoutReadiness(events: seq<FallbackEvent>, elapsed: nat)
    requires CanPlayThrough !in events && FallbackError !in events
    requires elapsed < FallbackTimeoutMs
    ensures FirstFallbackSignal(events, false, elapsed)
      == if elapsed + TotalElapsed(events) >= FallbackTimeoutMs then Some(Rejected(FallbackTimedOut)) else None
    decreases |events|
  {
    if events != [] {
      var rest := events[1..];
      assert CanPlayThrough !in rest && FallbackError !in rest by {
        assert forall e :: e in rest ==> e in events;
      }
      if events[0].Elapsed? {
        if elapsed + events[0].ms < FallbackTimeoutMs {
          FirstSignalWithoutReadiness(rest, elapsed + events[0].ms);
        }
      } else if events[0].FallbackPlayResolved? || events[0].FallbackPlayRejected? {
        FirstSignalWithoutReadiness(rest, elapsed);
      }
    }
  }

  /**
   * Without `canplaythrough` and without `error` the fallback stays
   * pending until 5000 ms have elapsed in total, and from then on it is
   * rejected with a timeout.
   */
  lemma FallbackWaitsForTimer(source: string, events: seq<FallbackEvent>)
    requires CanPlayThrough !in events && FallbackError !in events
    ensures FallbackRun(FallbackStart(source, true, true), events).settled
      == if TotalElapsed(events) >= FallbackTimeoutMs then Some(Rejected(FallbackTimedOut)) else None
  {
    FallbackOutcomeIsFirstSignal(source, events);
    FirstSignalWithoutReadiness(events, 0);
  }

  /** Without a browser or an AudioContext the fallback rejects at once and no event matters. */
  lemma {:induction false} FallbackUnavailable(source: string, inBrowser: bool, hasAudioContext: bool, events: seq<FallbackEvent>)
    requires !inBrowser || !hasAudioContext
    ensures FallbackRun(FallbackStart(source, inBrowser, hasAudioContext), events).settled
      == Some(Rejected(if !inBrowser then NotInBrowser else NoAudioContext))
  {
    FallbackSettlesOnce(FallbackStart(source, inBrowser, hasAudioContext), events);
  }

  // ----------------------------------------------------------------- primary

  datatype PrimaryEvent =
    | Ended                        // the element fired `ended`
    | Error                        // the element fired `error`
    | PlayRejected                 // the play() promise rejected
    | FromFallback(e: FallbackEvent) // a callback of the fallback started on `error`

  datatype PrimaryState = PrimaryState(
    source: string,
    settled: Option<Outcome>,
    listening: bool,
    hasAudioContext: bool,
    fallback: Option<FallbackState>)

  /** The state right after `playBase64Audio(source)` returns. */
  function PrimaryStart(source: string, inBrowser: bool, hasAudioContext: bool): PrimaryState {
    if inBrowser then PrimaryState(source, None, true, hasAudioContext, None)
    else PrimaryState(source, Some(Rejected(NotInBrowser)), false, hasAudioContext, None)
  }

  /** `tryAlternativePlay(...).then(resolve).catch(reject)`: the fallback's outcome is handed to the outer promise. */
  function Forward(settled: Option<Outcome>, f: FallbackState): Option<Outcome> {
    if f.settled.Some? then Settle(settled, f.settled.value) else settled
  }

  function PrimaryStep(s: PrimaryState, e: PrimaryEvent): PrimaryState {
    if !s.listening then s
    else match e
      case Ended => s.(settled := Settle(s.settled, Resolved))
      case PlayRejected => s.(settled := Settle(s.settled, Rejected(PlayFailed)))
      case Error =>
        var rejected := Settle(s.settled, Rejected(PlaybackError));
        if s.fallback.Some? then s.(settled := rejected)
        else
          var f := FallbackStart(s.source, true, s.hasAudioContext);
          s.(settled := Forward(rejected, f), fallback := Some(f))
      case FromFallback(fe) =>
        if s.fallback.None? then s
        else
          var f := FallbackStep(s.fallback.value, fe);
          s.(settled := Forward(s.settled, f), fallback := Some(f))
  }

  function PrimaryRun(s: PrimaryState, events: seq<PrimaryEvent>): PrimaryState
    decreases |events|
  {
    if events == [] then s else PrimaryRun(PrimaryStep(s, events[0]), events[1..])
  }

  /** Once settled, the outer promise never changes. */
  lemma {:induction false} PrimarySettlesOnce(s: PrimaryState, events: seq<PrimaryEvent>)
    requires s.settled.Some?
    ensures PrimaryRun(s, events).settled == s.settled
    decreases |events|
  {
    if events != [] {
      PrimarySettlesOnce(PrimaryStep(s, events[0]), events[1..]);
    }
  }

  /**
   * The outcome the outer promise should have by the events alone: that of
   * the first `ended`, `error` or rejected play(); fallback callbacks do not
   * count.
   */
  function FirstPrimarySignal(events: seq<PrimaryEvent>): Option<Outcome>
    decreases |events|
  {
    if events == [] then None
    else match events[0]
      case Ended => Some(Resolved)
      case Error => Some(Rejected(PlaybackError))
      case PlayRejected => Some(Rejected(PlayFailed))
      case FromFallback(_) => FirstPrimarySignal(events[1..])
  }

  lemma {:induction false} PrimaryRunOutcome(s: PrimaryState, events: seq<PrimaryEvent>)
    requires s.listening && s.settled.None? && s.fallback.None?
    ensures PrimaryRun(s, events).settled == FirstPrimarySignal(events)
    decreases |events|
  {
    if events != [] {
      var t := PrimaryStep(s, events[0]);
      if events[0].FromFallback? {
        PrimaryRunOutcome(t, events[1..]);
      } else {
        PrimarySettlesOnce(t, events[1..]);
      }
    }
  }

  /**
   * The outer outcome is decided by the first primary signal alone. In
   * particular an `error` rejects it for good: a fallback that then plays
   * successfully cannot turn it into success.
   */
  lemma PrimaryOutcomeIsFirstSignal(source: string, hasAudioContext: bool, events: seq<PrimaryEvent>)
    ensures PrimaryRun(PrimaryStart(source, true, hasAudioContext), events).settled == FirstPrimarySignal(events)
  {
    PrimaryRunOutcome(PrimaryStart(source, true, hasAudioContext), events);
  }

  /** Outside a browser the outer promise is rejected at once. */
  lemma PrimaryNotInBrowser(source: string, hasAudioContext: bool, events: seq<PrimaryEvent>)
    ensures PrimaryRun(PrimaryStart(source, false, hasAudioContext), events).settled == Some(Rejected(NotInBrowser))
  {
    PrimarySettlesOnce(PrimaryStart(source, false, hasAudioContext), events);
  }

  /** The events the fallback receives: those after the first `error`. */
  function FallbackEvents(events: seq<PrimaryEvent>, started: bool): seq<FallbackEvent>
    decreases |events|
  {
    if events == [] then []
    else
      var rest := FallbackEvents(events[1..], started || events[0].Error?);
      if events[0].FromFallback? && started then [events[0].e] + rest else rest
  }

  /**
   * Which fallback a primary run ends with: one exists exactly when there
   * was one at the start or an `error` arrived; it plays the primary's
   * source; an existing fallback steps through every fallback callback, and
   * one created during the run starts fresh and sees the fallback callbacks
   * after the first `error`.
   */
  lemma {:induction false} PrimaryRunFallback(s: PrimaryState, events: seq<PrimaryEvent>)
    requires s.listening
    requires s.fallback.Some? ==> s.fallback.value.source == s.source
    ensures PrimaryRun(s, events).fallback.Some? <==> s.fallback.Some? || Error in events
    ensures PrimaryRun(s, events).fallback.Some? ==> PrimaryRun(s, events).fallback.value.source == s.source
    ensures s.fallback.Some? ==> PrimaryRun(s, events).fallback == Some(FallbackRun(s.fallback.value, FallbackEvents(events, true)))
    ensures s.fallback.None? && Error in events ==>
      PrimaryRun(s, events).fallback == Some(FallbackRun(FallbackStart(s.source, true, s.hasAudioContext), FallbackEvents(events, false)))
    decreases |events|
  {
    if events != [] {
      var t := PrimaryStep(s, events[0]);
      PrimaryRunFallback(t, events[1..]);
      if s.fallback.Some? {
        var f := s.fallback.value;
        if events[0].FromFallback? {
          assert FallbackEvents(events, true) == [events[0].e] + FallbackEvents(events[1..], true);
          assert FallbackRun(f, [events[0].e] + FallbackEvents(events[1..], true))
            == FallbackRun(FallbackStep(f, events[0].e), FallbackEvents(events[1..], true));
        }
      } else if events[0].Error? {
        assert FallbackEvents(events, false) == FallbackEvents(events[1..], true);
      } else {
        assert FallbackEvents(events, false) == FallbackEvents(events[1..], false);
      }
    }
  }

  /**
   * The fallback is started exactly when an `error` arrives, with the same
   * source as the primary attempt, and the started fallback sees the
   * fallback callbacks that follow the first `error`.
   */
  lemma PrimaryStartsFallbackOnError(source: string, hasAudioContext: bool, events: seq<PrimaryEvent>)
    ensures var r := PrimaryRun(PrimaryStart(source, true, hasAudioContext), events);
      && (r.fallback.Some? <==> Error in events)
      && (r.fallback.Some? ==> r.fallback.value.source == source)
      && (Error in events ==>
            r.fallback == Some(FallbackRun(FallbackStart(source, true, hasAudioContext), FallbackEvents(events, false))))
  {
    PrimaryRunFallback(PrimaryStart(source, true, hasAudioContext), events);
  }

  /**
   * The quirk of `playBase64Audio`: after `error` the fallback may play and
   * resolve, yet the outer promise stays rejected.
   */
  lemma FallbackSuccessIsIgnored(source: string)
    ensures var r := PrimaryRun(PrimaryStart(source, true, true),
                                [Error, FromFallback(CanPlayThrough), FromFallback(FallbackPlayResolved)]);
      && r.settled == Some(Rejected(PlaybackError))
      && r.fallback.Some? && r.fallback.value.settled == Some(Resolved)
  {
    var s0 := PrimaryStart(source, true, true);
    var evs := [Error, FromFallback(CanPlayThrough), FromFallback(FallbackPlayResolved)];
    assert evs[1..][1..][1..] == [];
  }

  // ----------------------------------------------------------- the objects

  /**
   * The promise of `tryAlternativePlay` with the state its callbacks
   * update; one method per callback.
   */
  class FallbackPlayback {
    const source: string
    var settled: Option<Outcome>
    var listening: bool
    var playRequested: bool
    var elapsed: nat
    var timerFired: bool

    function State(): FallbackState
      reads this
    {
      FallbackState(source, settled, listening, playRequested, elapsed, timerFired)
    }

    constructor (source: string, inBrowser: bool, hasAudioContext: bool)
      ensures State() == FallbackStart(source, inBrowser, hasAudioContext)
    {
      this.source := source;
      playRequested := false;
      elapsed := 0;
      timerFired := false;
      if !inBrowser {
        settled := Some(Rejected(NotInBrowser));
        listening := false;
      } else if !hasAudioContext {
        settled := Some(Rejected(NoAudioContext));
        listening := false;
      } else {
        settled := None;
        listening := true;
      }
    }

    /** `canplaythrough`: the listener issues play(). */
    method OnCanPlayThrough()
      modifies this
      ensures State() == FallbackStep(old(State()), CanPlayThrough)
    {
      if listening {
        playRequested := true;
      }
    }

    /** The play() issued on `canplaythrough` resolved. */
    method OnPlayResolved()
      modifies this
      ensures State() == FallbackStep(old(State()), FallbackPlayResolved)
      ensures old(settled).Some? ==> settled == old(settled)
    {
      if listening && playRequested && settled.None? {
        settled := Some(Resolved);
      }
    }

    /** The play() issued on `canplaythrough` rejected. */
    method OnPlayRejected()
      modifies this
      ensures State() == FallbackStep(old(State()), FallbackPlayRejected)
      ensures old(settled).Some? ==> settled == old(settled)
    {
      if listening && playRequested && settled.None? {
        settled := Some(Rejected(FallbackPlayFailed));
      }
    }

    /** The element fired `error`. */
    method OnError()
      modifies this
      ensures State() == FallbackStep(old(State()), FallbackError)
      ensures old(settled).Some? ==> settled == old(settled)
    {
      if listening && settled.None? {
        settled := Some(Rejected(FallbackFailed));
      }
    }

    /** `ms` milliseconds passed; the 5000 ms timer fires once when they add up. */
    method OnTimePassed(ms: nat)
      modifies this
      ensures State() == FallbackStep(old(State()), Elapsed(ms))
      ensures old(settled).Some? ==> settled == old(settled)
    {
      if listening {
        elapsed := elapsed + ms;
        if !timerFired && elapsed >= FallbackTimeoutMs {
          timerFired := true;
          if settled.None? {
            settled := Some(Rejected(FallbackTimedOut));
          }
        }
      }
    }

    method Handle(e: FallbackEvent)
      modifies this
      ensures State() == FallbackStep(old(State()), e)
    {
      match e
      case CanPlayThrough => OnCanPlayThrough();
      case FallbackPlayResolved => OnPlayResolved();
      case FallbackPlayRejected => OnPlayRejected();
      case FallbackError => OnError();
      case Elapsed(ms) => OnTimePassed(ms);
    }
  }

  /**
   * The promise of `playBase64Audio` with the state its callbacks update;
   * the fallback object exists once `error` has started it.
   */
  class PrimaryPlayback {
    const source: string
    const hasAudioContext: bool
    var settled: Option<Outcome>
    var listening: bool
    var fallback: FallbackPlayback?

    function State(): PrimaryState
      reads this, fallback
    {
      PrimaryState(source, settled, listening, hasAudioContext,
                   if fallback == null then None else Some(fallback.State()))
    }

    constructor (source: string, inBrowser: bool, hasAudioContext: bool)
      ensures State() == PrimaryStart(source, inBrowser, hasAudioContext)
    {
      this.source := source;
      this.hasAudioContext := hasAudioContext;
      fallback := null;
      if inBrowser {
        settled := None;
        listening := true;
      } else {
        settled := Some(Rejected(NotInBrowser));
        listening := false;
      }
    }

    /** `ended`. */
    method OnEnded()
      modifies this
      ensures State() == PrimaryStep(old(State()), Ended)
      ensures old(settled).Some? ==> settled == old(settled)
    {
      if listening && settled.None? {
        settled := Some(Resolved);
      }
    }

    /** The play() promise rejected. */
    method OnPlayRejected()
      modifies this
      ensures State() == PrimaryStep(old(State()), PlayRejected)
      ensures old(settled).Some? ==> settled == old(settled)
    {
      if listening && settled.None? {
        settled := Some(Rejected(PlayFailed));
      }
    }

    /** `error`: reject, then start the fallback on the same source. */
    method OnError()
      modifies this
      ensures State() == PrimaryStep(old(State()), Error)
      ensures old(fallback) == null && listening ==> fresh(fallback)
      ensures old(settled).Some? ==> settled == old(settled)
    {
      if listening {
        if settled.None? {
          settled := Some(Rejected(PlaybackError));
        }
        if fallback == null {
          fallback := new FallbackPlayback(source, true, hasAudioContext);
          settled := Forward(settled, fallback.State());
        }
      }
    }

    /** A callback of the fallback; its outcome is handed to this promise. */
    method OnFallback(e: FallbackEvent)
      modifies this, fallback
      ensures State() == PrimaryStep(old(State()), FromFallback(e))
      ensures old(settled).Some? ==> settled == old(settled)
    {
      if listening && fallback != null {
        fallback.Handle(e);
        settled := Forward(settled, fallback.State());
      }
    }
  }
}

/** The scheduling side of the background animation in js/main.js: the
    isAnimationRunning flag, animate's self-rescheduling through
    requestAnimationFrame, and window.pauseCanvasAnimation /
    window.resumeCanvasAnimation. The host's frame callbacks are discrete
    events: each one fires a callback that an earlier animate call requested. */
module FrameLoop {

  /** running: isAnimationRunning; pending: frame callbacks requested and not
      yet fired; requests: requestAnimationFrame calls issued so far. */
  datatype Loop = Loop(running: bool, pending: nat, requests: nat)

  /** Everything that can happen to the loop. */
  datatype Event = Pause | Resume | Frame

  /** Effect of one animate() call on the schedule: nothing when the flag is
      clear, otherwise one frame of work and one new request. */
  function AnimateStep(l: Loop): Loop {
    if !l.running then l
    else Loop(l.running, l.pending + 1, l.requests + 1)
  }

  /** pauseCanvasAnimation: clear the flag. */
  function PauseStep(l: Loop): Loop {
    l.(running := false)
  }

  /** resumeCanvasAnimation as written: when the flag is clear, set it and
      call animate at once, whether or not a frame is still pending. */
  function ResumeStep(l: Loop): Loop {
    if l.running then l else AnimateStep(l.(running := true))
  }

  /** resumeCanvasAnimation as evidently intended: set the flag, and call
      animate only when no frame callback is still pending (a pending one
      will find the flag set and carry the loop on). */
  function ResumeOnceStep(l: Loop): Loop {
    if l.running then l
    else if l.pending == 0 then AnimateStep(l.(running := true))
    else l.(running := true)
  }

  /** The host fires one pending frame callback, which calls animate. */
  function FrameStep(l: Loop): Loop {
    if l.pending == 0 then l else AnimateStep(l.(pending := l.pending - 1))
  }

  function Apply(l: Loop, e: Event, intended: bool): Loop {
    match e
    case Pause => PauseStep(l)
    case Resume => if intended then ResumeOnceStep(l) else ResumeStep(l)
    case Frame => FrameStep(l)
  }

  /** The loop after a sequence of events. */
  function Run(l: Loop, events: seq<Event>, intended: bool): Loop
    decreases |events|
  {
    if events == [] then l else Run(Apply(l, events[0], intended), events[1..], intended)
  }

  /** State right after startup: setupCanvas(); animate(); with the flag set. */
  const Started: Loop := AnimateStep(Loop(true, 0, 0))

  /** At most one animate chain: at most one pending frame, and exactly one
      while the flag is set. */
  predicate SingleChain(l: Loop) {
    l.pending <= 1 && (l.running ==> l.pending == 1)
  }

  /** animate with the flag clear changes nothing and requests nothing; with
      the flag set it requests exactly one frame. */
  lemma AnimateSpec(l: Loop)
    ensures !l.running ==> AnimateStep(l) == l
    ensures l.running ==>
      AnimateStep(l).requests == l.requests + 1 && AnimateStep(l).pending == l.pending + 1
  {
  }

  /** pause always leaves the flag clear, touches nothing else, and pausing
      twice is pausing once. */
  lemma PauseSpec(l: Loop)
    ensures !PauseStep(l).running
    ensures PauseStep(l).pending == l.pending && PauseStep(l).requests == l.requests
    ensures PauseStep(PauseStep(l)) == PauseStep(l)
  {
  }

  /** resume while running is a no-op; resume while paused sets the flag and
      runs exactly one frame. */
  lemma ResumeSpec(l: Loop)
    ensures l.running ==> ResumeStep(l) == l
    ensures !l.running ==>
      ResumeStep(l).running && ResumeStep(l).requests == l.requests + 1
      && ResumeStep(l).pending == l.pending + 1
  {
  }

  /** Runs compose. */
  lemma {:induction false} RunAppend(l: Loop, xs: seq<Event>, ys: seq<Event>, intended: bool)
    ensures Run(l, xs + ys, intended) == Run(Run(l, xs, intended), ys, intended)
    decreases |xs|
  {
    if xs == [] {
      assert xs + ys == ys;
    } else {
      assert (xs + ys)[0] == xs[0] && (xs + ys)[1..] == xs[1..] + ys;
      RunAppend(Apply(l, xs[0], intended), xs[1..], ys, intended);
    }
  }

  /** The request counter never goes down. */
  lemma {:induction false} RequestsMonotone(l: Loop, events: seq<Event>, intended: bool)
    ensures Run(l, events, intended).requests >= l.requests
    decreases |events|
  {
    if events != [] {
      RequestsMonotone(Apply(l, events[0], intended), events[1..], intended);
    }
  }

  /** As written: pausing and resuming before the pending frame fires leaves
      two frames pending, two animate chains. */
  lemma PauseResumeDoublesChain()
    ensures SingleChain(Started)
    ensures Run(Started, [Pause, Resume], false) == Loop(true, 2, 2)
    ensures !SingleChain(Run(Started, [Pause, Resume], false))
  {
  }

  /** k pause/resume pairs inside one frame, as a sequence of events. */
  function Toggles(k: nat): (es: seq<Event>)
    ensures |es| == 2 * k
  {
    if k == 0 then [] else [Pause, Resume] + Toggles(k - 1)
  }

  /** As written the number of pending frames, and so of animate chains, grows
      without bound: k pause/resume pairs within one frame leave k + 1. */
  lemma {:induction false} TogglesStackChains(k: nat)
    ensures Run(Started, Toggles(k), false).pending == k + 1
    ensures Run(Started, Toggles(k), false).running
  {
    if k > 0 {
      TogglesStackChains(k - 1);
      var mid := Run(Started, Toggles(k - 1), false);
      RunAppend(Started, Toggles(k - 1), [Pause, Resume], false);
      ToggleLast(k);
      assert Run(mid, [Pause, Resume], false) == Loop(true, mid.pending + 1, mid.requests + 1);
    }
  }

  /** Toggles(k) is Toggles(k - 1) followed by one more pair. */
  lemma {:induction false} ToggleLast(k: nat)
    requires k > 0
    ensures Toggles(k) == Toggles(k - 1) + [Pause, Resume]
  {
    if k > 1 {
      ToggleLast(k - 1);
    }
  }

  /** With the intended resume, every event keeps a single chain. */
  lemma IntendedStepKeepsSingleChain(l: Loop, e: Event)
    requires SingleChain(l)
    ensures SingleChain(Apply(l, e, true))
  {
  }

  /** With the intended resume, any sequence of pauses, resumes and frames from
      startup keeps at most one pending frame; and whenever the flag is set a
      frame is pending, so the animation is never left stalled. */
  lemma {:induction false} IntendedKeepsSingleChain(l: Loop, events: seq<Event>)
    requires SingleChain(l)
    ensures SingleChain(Run(l, events, true))
    decreases |events|
  {
    if events != [] {
      IntendedStepKeepsSingleChain(l, events[0]);
      IntendedKeepsSingleChain(Apply(l, events[0], true), events[1..]);
    }
  }

  /** The intended resume agrees with the written one whenever no frame is
      pending, and with a chain already alive it only sets the flag. */
  lemma ResumeOnceAgrees(l: Loop)
    ensures l.pending == 0 ==> ResumeOnceStep(l) == ResumeStep(l)
    ensures l.running ==> ResumeOnceStep(l) == l
    ensures !l.running ==> ResumeOnceStep(l).running
  {
  }
}

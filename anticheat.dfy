/**
 * The proctoring hook of the exam page: it listens, while the exam is
 * active, for the tab being hidden, the window losing focus, the page being
 * hidden and fullscreen being left; each such signal is a strike, and the
 * hook boots the student when the strikes reach the limit, when a 10-second
 * warning countdown runs out, or when the student stays away 10 seconds.
 *
 * Timers, the clock and the DOM become events: an interval tick, the away
 * timeout firing, and the listener events, each carrying the clock reading
 * in milliseconds and the page's `isAutoSubmitting` flag where the handler
 * reads them. `onBoot` is counted, not performed. The pure functions below
 * are the transition rules; the class at the end holds the state in fields
 * and its methods follow those rules.
 */
module AntiCheat {
  import opened Wrappers

  datatype Stage = Welcome | Active | Submitted | Booted

  /** Length of the warning countdown, in ticks of one second. */
  const CountdownSeconds: int := 10
  /** How long the student may stay away, in milliseconds. */
  const AwayLimitMs: int := 10000

  const TabSwitchReason: string := "Tab switching detected."
  const FocusLostReason: string := "Window focus lost."
  const FullscreenExitReason: string := "Exited Fullscreen mode."
  const PageHiddenReason: string := "Page hidden (Mobile/Tab switch)."

  /**
   * The hook's state. `intervalSet` and `awaySet` say whether the refs
   * `violationTimeoutRef` and `awayTimeoutRef` hold a handle;
   * `intervalRunning` and `awayPending` say whether that timer will still
   * fire. Clearing a timer does not always null its ref, so the two differ.
   * `awayDue` is when the away timeout fires, `boots` counts `onBoot` calls
   * and `listening` says whether the listeners are installed.
   */
  datatype Monitor = Monitor(
    strikes: int,
    violation: Option<string>,
    violationSeconds: int,
    modalOpen: bool,
    intervalSet: bool,
    intervalRunning: bool,
    awaySet: bool,
    awayPending: bool,
    awayDue: int,
    awayStart: Option<int>,
    boots: nat,
    listening: bool)

  const Initial: Monitor :=
    Monitor(0, None, CountdownSeconds, false, false, false, false, false, 0, None, 0, false)

  predicate Valid(m: Monitor) {
    m.strikes >= 0 && 0 <= m.violationSeconds <= CountdownSeconds
    && (m.intervalRunning ==> m.intervalSet)
    && (m.awayPending ==> m.awaySet)
    && (!m.listening ==> !m.intervalRunning && !m.awayPending)
  }

  /** JavaScript truthiness of `awayStartTimeRef.current`: set and not 0. */
  predicate Truthy(t: Option<int>) {
    t.Some? && t.value != 0
  }

  /** The part of the state the away logic owns. */
  function AwayPart(m: Monitor): (bool, bool, int, Option<int>) {
    (m.awaySet, m.awayPending, m.awayDue, m.awayStart)
  }

  /** `recordStrike(reason)`. */
  function StrikeStep(m: Monitor, maxStrikes: int, reason: string, autoSubmitting: bool): (r: Monitor)
    ensures autoSubmitting ==> r == m
    ensures !autoSubmitting ==> r.strikes == m.strikes + 1 && r.violation == Some(reason)
    ensures !autoSubmitting && m.strikes + 1 >= maxStrikes ==>
      !r.modalOpen && r.boots == m.boots + 1
      && r.intervalSet == m.intervalSet && r.intervalRunning == m.intervalRunning
      && r.violationSeconds == m.violationSeconds
    ensures !autoSubmitting && m.strikes + 1 < maxStrikes ==>
      r.modalOpen && r.boots == m.boots && r.intervalSet
      && (m.intervalSet ==> r.intervalRunning == m.intervalRunning && r.violationSeconds == m.violationSeconds)
      && (!m.intervalSet ==> r.intervalRunning && r.violationSeconds == CountdownSeconds)
    ensures AwayPart(r) == AwayPart(m) && r.listening == m.listening
  {
    if autoSubmitting then m
    else
      var newStrikes := m.strikes + 1;
      var m1 := m.(violation := Some(reason), strikes := newStrikes);
      if newStrikes >= maxStrikes then m1.(modalOpen := false, boots := m.boots + 1)
      else if !m.intervalSet then
        m1.(modalOpen := true, violationSeconds := CountdownSeconds, intervalSet := true, intervalRunning := true)
      else m1.(modalOpen := true)
  }

  /** `handleAwayStart(reason)`: a strike, then at most one away timeout, then the first away time. */
  function AwayStartStep(m: Monitor, maxStrikes: int, reason: string, now: int, autoSubmitting: bool): (r: Monitor)
    ensures r.(awaySet := m.awaySet, awayPending := m.awayPending, awayDue := m.awayDue, awayStart := m.awayStart)
            == StrikeStep(m, maxStrikes, reason, autoSubmitting)
    ensures r.awaySet && r.awayStart.Some?
  {
    var m1 := StrikeStep(m, maxStrikes, reason, autoSubmitting);
    var m2 := if !m1.awaySet then m1.(awaySet := true, awayPending := true, awayDue := now + AwayLimitMs) else m1;
    if !Truthy(m2.awayStart) then m2.(awayStart := Some(now)) else m2
  }

  /** `handleBack()`: boot if away for more than the limit, then forget the away time and cancel the timeout. */
  function BackStep(m: Monitor, now: int): (r: Monitor)
    ensures r.(boots := m.boots, modalOpen := m.modalOpen, awaySet := m.awaySet, awayPending := m.awayPending,
               awayStart := m.awayStart) == m
    ensures !Truthy(r.awayStart) && !r.awaySet
    ensures m.boots <= r.boots <= m.boots + 1
    ensures r.boots == m.boots + 1 ==> !r.modalOpen
    ensures r.boots == m.boots ==> r.modalOpen == m.modalOpen
  {
    var m1 :=
      if Truthy(m.awayStart) then
        (if now - m.awayStart.value > AwayLimitMs then m.(boots := m.boots + 1, modalOpen := false) else m)
          .(awayStart := None)
      else m;
    if m1.awaySet then m1.(awayPending := false, awaySet := false) else m1
  }

  /** One tick of the countdown interval; at one second or less it stops, boots and closes the warning. */
  function TickStep(m: Monitor): (r: Monitor)
    ensures r.(violationSeconds := m.violationSeconds, intervalRunning := m.intervalRunning, boots := m.boots,
               modalOpen := m.modalOpen) == m
    ensures r.boots == m.boots + 1 <==> m.intervalRunning && m.violationSeconds <= 1
    ensures r.boots == m.boots + 1 ==> !r.intervalRunning && !r.modalOpen && r.violationSeconds == 0
    ensures r.boots == m.boots ==> r.modalOpen == m.modalOpen && r.intervalRunning == m.intervalRunning
    ensures m.intervalRunning && m.violationSeconds > 1 ==> r.violationSeconds == m.violationSeconds - 1
  {
    if !m.intervalRunning then m
    else if m.violationSeconds <= 1 then
      m.(violationSeconds := 0, intervalRunning := false, boots := m.boots + 1, modalOpen := false)
    else m.(violationSeconds := m.violationSeconds - 1)
  }

  /** The away timeout firing at `now`: it closes the warning and boots. The ref keeps its handle. */
  function AwayTimeoutStep(m: Monitor, now: int): (r: Monitor)
    ensures r.boots == m.boots + 1 <==> m.awayPending && now >= m.awayDue
    ensures r.boots == m.boots ==> r == m
    ensures r != m ==> !r.awayPending && !r.modalOpen && r.awaySet == m.awaySet
    ensures r.(awayPending := m.awayPending, modalOpen := m.modalOpen, boots := m.boots) == m
  {
    if m.awayPending && now >= m.awayDue then m.(awayPending := false, modalOpen := false, boots := m.boots + 1)
    else m
  }

  /** The effect's cleanup: the listeners go and both timers are cleared; the refs keep their handles. */
  function TeardownStep(m: Monitor): (r: Monitor)
    ensures !r.listening
    ensures Valid(m) ==> !r.intervalRunning && !r.awayPending
    ensures r.intervalSet == m.intervalSet && r.awaySet == m.awaySet && r.awayStart == m.awayStart
    ensures r.strikes == m.strikes && r.boots == m.boots && r.modalOpen == m.modalOpen
            && r.violationSeconds == m.violationSeconds
    ensures r.(listening := m.listening, intervalRunning := m.intervalRunning, awayPending := m.awayPending) == m
  {
    if !m.listening then m
    else
      var m1 := m.(listening := false);
      var m2 := if m1.awaySet then m1.(awayPending := false) else m1;
      if m2.intervalSet then m2.(intervalRunning := false) else m2
  }

  /** The effect running for `stage` after its dependencies changed: cleanup of the last run, then setup. */
  function EffectStep(m: Monitor, stage: Stage): (r: Monitor)
    ensures Valid(m) ==> !r.intervalRunning && !r.awayPending
    ensures r.intervalSet == m.intervalSet && r.awaySet == m.awaySet
    ensures r.strikes == m.strikes && r.boots == m.boots
    ensures r.(listening := m.listening, intervalRunning := m.intervalRunning, awayPending := m.awayPending) == m
  {
    var m1 := TeardownStep(m);
    if stage == Active then m1.(listening := true) else m1
  }

  datatype Event =
    | VisibilityChange(hidden: bool, now: int, autoSubmitting: bool)
    | Blur(now: int, autoSubmitting: bool)
    | Focus(now: int)
    | PageHide(now: int, autoSubmitting: bool)
    | FullscreenChange(inFullscreen: bool, autoSubmitting: bool)
    | IntervalTick
    | AwayTimeoutFires(now: int)
    | EffectRuns(stage: Stage)
    | Unmount

  /** The events that can record a strike: hiding the tab, losing focus, hiding the page, leaving fullscreen. */
  predicate MaySignal(e: Event) {
    (e.VisibilityChange? && e.hidden) || e.Blur? || e.PageHide? || (e.FullscreenChange? && !e.inFullscreen)
  }

  /** One event. Listener events reach the hook only while its listeners are installed. */
  function Step(m: Monitor, maxStrikes: int, e: Event): (r: Monitor)
    ensures r.strikes != m.strikes ==> m.listening && MaySignal(e)
    ensures !m.listening && (e.VisibilityChange? || e.Blur? || e.Focus? || e.PageHide? || e.FullscreenChange?)
            ==> r == m
  {
    match e
    case VisibilityChange(hidden, now, auto) =>
      if !m.listening then m
      else if hidden then AwayStartStep(m, maxStrikes, TabSwitchReason, now, auto)
      else BackStep(m, now)
    case Blur(now, auto) =>
      if !m.listening then m else AwayStartStep(m, maxStrikes, FocusLostReason, now, auto)
    case Focus(now) =>
      if !m.listening then m else BackStep(m, now)
    case PageHide(now, auto) =>
      if !m.listening then m else AwayStartStep(m, maxStrikes, PageHiddenReason, now, auto)
    case FullscreenChange(inFullscreen, auto) =>
      if !m.listening || inFullscreen then m else StrikeStep(m, maxStrikes, FullscreenExitReason, auto)
    case IntervalTick => TickStep(m)
    case AwayTimeoutFires(now) => AwayTimeoutStep(m, now)
    case EffectRuns(stage) => EffectStep(m, stage)
    case Unmount => TeardownStep(m)
  }

  /** The events `es`, in order. Without a strike signal among them the strikes stay as they are. */
  function Run(m: Monitor, maxStrikes: int, es: seq<Event>): (r: Monitor)
    ensures (forall i :: 0 <= i < |es| ==> !MaySignal(es[i])) ==> r.strikes == m.strikes
    decreases |es|
  {
    if es == [] then m
    else
      assert forall i :: 0 <= i < |es| - 1 ==> es[1..][i] == es[i + 1];
      Run(Step(m, maxStrikes, es[0]), maxStrikes, es[1..])
  }

  // ---------------------------------------------------------------------------
  // Properties
  // ---------------------------------------------------------------------------

  /**
   * Every event keeps the state valid, never lowers the strikes, adds at
   * most one strike, and keeps a set countdown handle set.
   */
  lemma StepProperties(m: Monitor, maxStrikes: int, e: Event)
    requires Valid(m)
    ensures Valid(Step(m, maxStrikes, e))
    ensures m.strikes <= Step(m, maxStrikes, e).strikes <= m.strikes + 1
    ensures m.intervalSet ==> Step(m, maxStrikes, e).intervalSet
    ensures m.boots <= Step(m, maxStrikes, e).boots
  {
    match e
    case VisibilityChange(hidden, now, auto) =>
      if m.listening && hidden {
        AwayStartValid(m, maxStrikes, TabSwitchReason, now, auto);
      } else if m.listening {
        BackValid(m, now);
      }
    case Blur(now, auto) =>
      if m.listening {
        AwayStartValid(m, maxStrikes, FocusLostReason, now, auto);
      }
    case Focus(now) =>
      if m.listening {
        BackValid(m, now);
      }
    case PageHide(now, auto) =>
      if m.listening {
        AwayStartValid(m, maxStrikes, PageHiddenReason, now, auto);
      }
    case FullscreenChange(inFullscreen, auto) =>
      if m.listening && !inFullscreen {
        StrikeValid(m, maxStrikes, FullscreenExitReason, auto);
      }
    case IntervalTick =>
    case AwayTimeoutFires(_) =>
    case EffectRuns(_) =>
    case Unmount =>
  }

  lemma StrikeValid(m: Monitor, maxStrikes: int, reason: string, auto: bool)
    requires Valid(m) && m.listening
    ensures var r := StrikeStep(m, maxStrikes, reason, auto);
      Valid(r) && m.strikes <= r.strikes <= m.strikes + 1 && r.listening
      && (m.intervalSet ==> r.intervalSet) && m.boots <= r.boots
  {
  }

  lemma AwayStartValid(m: Monitor, maxStrikes: int, reason: string, now: int, auto: bool)
    requires Valid(m) && m.listening
    ensures var r := AwayStartStep(m, maxStrikes, reason, now, auto);
      Valid(r) && m.strikes <= r.strikes <= m.strikes + 1 && r.listening
      && (m.intervalSet ==> r.intervalSet) && m.boots <= r.boots
  {
  }

  lemma BackValid(m: Monitor, now: int)
    requires Valid(m)
    ensures var r := BackStep(m, now);
      Valid(r) && r.strikes == m.strikes && r.intervalSet == m.intervalSet && m.boots <= r.boots
  {
  }

  /** Over any run of events the strikes never go down and the state stays valid. */
  lemma {:induction false} StrikesNeverDecrease(m: Monitor, maxStrikes: int, es: seq<Event>)
    requires Valid(m)
    ensures Valid(Run(m, maxStrikes, es))
    ensures m.strikes <= Run(m, maxStrikes, es).strikes <= m.strikes + |es|
    ensures m.boots <= Run(m, maxStrikes, es).boots
    decreases |es|
  {
    if es != [] {
      StepProperties(m, maxStrikes, es[0]);
      StrikesNeverDecrease(Step(m, maxStrikes, es[0]), maxStrikes, es[1..]);
    }
  }

  /** A strike that reaches the limit boots at once and starts no countdown. */
  lemma FinalStrikeBoots(m: Monitor, maxStrikes: int, reason: string)
    requires m.strikes + 1 >= maxStrikes
    ensures var r := StrikeStep(m, maxStrikes, reason, false);
      r.boots == m.boots + 1 && !r.modalOpen && r.intervalRunning == m.intervalRunning
  {
  }

  function Ticks(m: Monitor, k: nat): Monitor {
    if k == 0 then m else TickStep(Ticks(m, k - 1))
  }

  /** A running countdown at `s` seconds counts down one per tick, without booting, for s - 1 ticks. */
  lemma {:induction false} CountdownCountsDown(m: Monitor, k: nat)
    requires m.intervalRunning && k < m.violationSeconds
    ensures Ticks(m, k) == m.(violationSeconds := m.violationSeconds - k)
  {
    if k > 0 {
      CountdownCountsDown(m, k - 1);
    }
  }

  /** The s-th tick of a countdown started at `s` stores 0, stops it, closes the warning and boots. */
  lemma CountdownRunsOut(m: Monitor)
    requires m.intervalRunning && m.violationSeconds >= 1
    ensures Ticks(m, m.violationSeconds) ==
      m.(violationSeconds := 0, intervalRunning := false, boots := m.boots + 1, modalOpen := false)
  {
    CountdownCountsDown(m, m.violationSeconds - 1);
  }

  /** With the standard 10 seconds the 10th tick boots. */
  lemma TenthTickBoots(m: Monitor)
    requires m.intervalRunning && m.violationSeconds == CountdownSeconds
    ensures Ticks(m, 9).boots == m.boots && Ticks(m, 9).violationSeconds == 1
    ensures Ticks(m, 10).boots == m.boots + 1 && !Ticks(m, 10).intervalRunning
  {
    CountdownCountsDown(m, 9);
    CountdownRunsOut(m);
  }

  /**
   * Once a countdown has stopped, none ever starts again: the handle stays
   * set, so later strikes open the warning without a countdown.
   */
  lemma {:induction false} NoSecondCountdown(m: Monitor, maxStrikes: int, es: seq<Event>)
    requires m.intervalSet && !m.intervalRunning
    ensures Run(m, maxStrikes, es).intervalSet && !Run(m, maxStrikes, es).intervalRunning
    ensures Run(m, maxStrikes, es).violationSeconds == m.violationSeconds
    decreases |es|
  {
    if es != [] {
      StoppedCountdownStep(m, maxStrikes, es[0]);
      NoSecondCountdown(Step(m, maxStrikes, es[0]), maxStrikes, es[1..]);
    }
  }

  lemma StoppedCountdownStep(m: Monitor, maxStrikes: int, e: Event)
    requires m.intervalSet && !m.intervalRunning
    ensures var r := Step(m, maxStrikes, e);
      r.intervalSet && !r.intervalRunning && r.violationSeconds == m.violationSeconds
  {
    match e
    case VisibilityChange(_, _, _) =>
    case Blur(_, _) =>
    case Focus(_) =>
    case PageHide(_, _) =>
    case FullscreenChange(_, _) =>
    case IntervalTick =>
    case AwayTimeoutFires(_) =>
    case EffectRuns(_) =>
    case Unmount =>
  }

  /** With the default limit of 3, three fullscreen exits boot on the third, with the warning closed. */
  lemma ThreeFullscreenExitsBoot(m: Monitor)
    requires m.listening && m.strikes == 0
    ensures var r := Run(m, 3, [FullscreenChange(false, false), FullscreenChange(false, false),
                                FullscreenChange(false, false)]);
      r.strikes == 3 && r.boots == m.boots + 1 && !r.modalOpen
  {
  }

  /**
   * An away signal records a strike and arms the away timeout only if none is
   * armed; it keeps the first away time.
   */
  lemma AwayStartKeepsFirst(m: Monitor, maxStrikes: int, reason: string, now: int, auto: bool)
    ensures var r := AwayStartStep(m, maxStrikes, reason, now, auto);
      (Truthy(m.awayStart) ==> r.awayStart == m.awayStart)
      && (!Truthy(m.awayStart) ==> r.awayStart == Some(now))
      && (m.awaySet ==> r.awayPending == m.awayPending && r.awayDue == m.awayDue)
      && (!m.awaySet ==> r.awaySet && r.awayPending && r.awayDue == now + AwayLimitMs)
      && r.strikes == (if auto then m.strikes else m.strikes + 1)
  {
  }

  /** Staying away: the timeout armed by hiding the tab boots when it fires 10 000 ms later. */
  lemma AwayTimeoutBoots(m: Monitor, maxStrikes: int, t: int)
    requires m.listening && !m.awaySet
    ensures var away := Step(m, maxStrikes, VisibilityChange(true, t, false));
      var fired := Step(away, maxStrikes, AwayTimeoutFires(t + AwayLimitMs));
      fired.boots == away.boots + 1 && !fired.modalOpen && !fired.awayPending
  {
  }

  /**
   * Coming back cancels the away timeout and clears the away time, and boots
   * exactly when more than 10 000 ms passed since the first away signal.
   */
  lemma BackBootsWhenTooLate(m: Monitor, now: int)
    requires Valid(m) && Truthy(m.awayStart)
    ensures var r := BackStep(m, now);
      r.boots == m.boots + (if now - m.awayStart.value > AwayLimitMs then 1 else 0)
      && r.awayStart.None? && !r.awaySet && !r.awayPending
  {
  }

  /** Coming back when not away changes nothing. */
  lemma BackWhenNotAway(m: Monitor, now: int)
    requires !Truthy(m.awayStart) && !m.awaySet
    ensures BackStep(m, now) == m
  {
  }

  /** Leaving fullscreen is a strike and leaves the away timer alone. */
  lemma FullscreenExitLeavesAwayTimer(m: Monitor, maxStrikes: int, auto: bool)
    requires m.listening
    ensures var r := Step(m, maxStrikes, FullscreenChange(false, auto));
      AwayPart(r) == AwayPart(m) && r == StrikeStep(m, maxStrikes, FullscreenExitReason, auto)
  {
  }

  /** The listeners are installed exactly while the stage is active. */
  lemma ListenersOnlyWhileActive(m: Monitor, stage: Stage)
    ensures EffectStep(m, stage).listening <==> stage == Active
  {
  }

  predicate NoEffectRuns(es: seq<Event>) {
    forall i :: 0 <= i < |es| ==> !es[i].EffectRuns?
  }

  /**
   * After teardown nothing can change the state until the effect runs again:
   * no listener is installed and no timer is left to fire.
   */
  lemma {:induction false} QuietAfterTeardown(m: Monitor, maxStrikes: int, es: seq<Event>)
    requires Valid(m)
    requires NoEffectRuns(es)
    ensures !TeardownStep(m).intervalRunning && !TeardownStep(m).awayPending
    ensures Run(TeardownStep(m), maxStrikes, es) == TeardownStep(m)
    decreases |es|
  {
    var t := TeardownStep(m);
    if es != [] {
      assert Step(t, maxStrikes, es[0]) == t;
      assert TeardownStep(t) == t;
      assert NoEffectRuns(es[1..]) by {
        forall i | 0 <= i < |es[1..]| ensures !es[1..][i].EffectRuns? {
          assert es[1..][i] == es[i + 1];
        }
      }
      QuietAfterTeardown(t, maxStrikes, es[1..]);
    }
  }

  // ---------------------------------------------------------------------------
  // The hook's state in place
  // ---------------------------------------------------------------------------

  class AntiCheatHook {
    const maxStrikes: int
    var strikes: int
    var violation: Option<string>
    var violationSeconds: int
    var modalOpen: bool
    var intervalSet: bool
    var intervalRunning: bool
    var awaySet: bool
    var awayPending: bool
    var awayDue: int
    var awayStart: Option<int>
    var boots: nat
    var listening: bool

    ghost function State(): Monitor
      reads this
    {
      Monitor(strikes, violation, violationSeconds, modalOpen, intervalSet, intervalRunning,
              awaySet, awayPending, awayDue, awayStart, boots, listening)
    }

    constructor (maxStrikes: int)
      ensures this.maxStrikes == maxStrikes && State() == Initial
      ensures Valid(State())
    {
      this.maxStrikes := maxStrikes;
      strikes, violation, violationSeconds, modalOpen := 0, None, CountdownSeconds, false;
      intervalSet, intervalRunning := false, false;
      awaySet, awayPending, awayDue, awayStart := false, false, 0, None;
      boots, listening := 0, false;
    }

    method Boot()
      modifies this`boots
      ensures boots == old(boots) + 1
    {
      boots := boots + 1;
    }

    /** `recordStrike`. */
    method RecordStrike(reason: string, autoSubmitting: bool)
      modifies this
      ensures State() == StrikeStep(old(State()), maxStrikes, reason, autoSubmitting)
    {
      if autoSubmitting {
        return;
      }
      violation := Some(reason);
      var newStrikes := strikes + 1;
      if newStrikes >= maxStrikes {
        modalOpen := false;
        Boot();
      } else {
        modalOpen := true;
        if !intervalSet {
          violationSeconds := CountdownSeconds;
          intervalSet := true;
          intervalRunning := true;
        }
      }
      strikes := newStrikes;
    }

    /** `handleAwayStart`. */
    method HandleAwayStart(reason: string, now: int, autoSubmitting: bool)
      modifies this
      ensures State() == AwayStartStep(old(State()), maxStrikes, reason, now, autoSubmitting)
    {
      RecordStrike(reason, autoSubmitting);
      if !awaySet {
        awaySet, awayPending, awayDue := true, true, now + AwayLimitMs;
      }
      if !Truthy(awayStart) {
        awayStart := Some(now);
      }
    }

    /** `handleBack`. */
    method HandleBack(now: int)
      modifies this
      ensures State() == BackStep(old(State()), now)
    {
      if Truthy(awayStart) {
        var diff := now - awayStart.value;
        if diff > AwayLimitMs {
          Boot();
          modalOpen := false;
        }
        awayStart := None;
      }
      if awaySet {
        awayPending := false;
        awaySet := false;
      }
    }

    /** `handleVisibilityChange`. */
    method HandleVisibilityChange(hidden: bool, now: int, autoSubmitting: bool)
      modifies this
      ensures State() == Step(old(State()), maxStrikes, VisibilityChange(hidden, now, autoSubmitting))
    {
      if !listening {
        return;
      }
      if hidden {
        HandleAwayStart(TabSwitchReason, now, autoSubmitting);
      } else {
        HandleBack(now);
      }
    }

    /** `handleBlur`. */
    method HandleBlur(now: int, autoSubmitting: bool)
      modifies this
      ensures State() == Step(old(State()), maxStrikes, Blur(now, autoSubmitting))
    {
      if listening {
        HandleAwayStart(FocusLostReason, now, autoSubmitting);
      }
    }

    /** `handleFocus`. */
    method HandleFocus(now: int)
      modifies this
      ensures State() == Step(old(State()), maxStrikes, Focus(now))
    {
      if listening {
        HandleBack(now);
      }
    }

    /** `handlePageHide`. */
    method HandlePageHide(now: int, autoSubmitting: bool)
      modifies this
      ensures State() == Step(old(State()), maxStrikes, PageHide(now, autoSubmitting))
    {
      if listening {
        HandleAwayStart(PageHiddenReason, now, autoSubmitting);
      }
    }

    /** `handleFullscreenChange`; `inFullscreen` is whether `document.fullscreenElement` is set. */
    method HandleFullscreenChange(inFullscreen: bool, autoSubmitting: bool)
      modifies this
      ensures State() == Step(old(State()), maxStrikes, FullscreenChange(inFullscreen, autoSubmitting))
    {
      if listening && !inFullscreen {
        RecordStrike(FullscreenExitReason, autoSubmitting);
      }
    }

    /** The countdown interval's callback. */
    method IntervalTick()
      modifies this
      ensures State() == Step(old(State()), maxStrikes, Event.IntervalTick)
    {
      if !intervalRunning {
        return;
      }
      if violationSeconds <= 1 {
        intervalRunning := false;
        Boot();
        modalOpen := false;
        violationSeconds := 0;
      } else {
        violationSeconds := violationSeconds - 1;
      }
    }

    /** The away timeout's callback, at `now`. */
    method AwayTimeoutFires(now: int)
      modifies this
      ensures State() == Step(old(State()), maxStrikes, Event.AwayTimeoutFires(now))
    {
      if awayPending && now >= awayDue {
        awayPending := false;
        modalOpen := false;
        Boot();
      }
    }

    /** The effect's cleanup function. */
    method Teardown()
      modifies this
      ensures State() == TeardownStep(old(State()))
    {
      if !listening {
        return;
      }
      listening := false;
      if awaySet {
        awayPending := false;
      }
      if intervalSet {
        intervalRunning := false;
      }
    }

    /** The effect, re-run for `stage` (its dependencies changed): cleanup, then setup. */
    method RunEffect(stage: Stage)
      modifies this
      ensures State() == Step(old(State()), maxStrikes, EffectRuns(stage))
    {
      Teardown();
      if stage == Active {
        listening := true;
      }
    }

    /** The component unmounts: the last cleanup runs. */
    method Unmount()
      modifies this
      ensures State() == Step(old(State()), maxStrikes, Event.Unmount)
    {
      Teardown();
    }
  }
}

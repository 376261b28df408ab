/** The countdown of src/script.js: three configurable durations, the
    current mode, the seconds remaining and whether the one-second interval
    is running. The host's `setInterval`/`clearInterval` are modelled as a
    registry of armed interval handles, so that "one interval at most" can
    be stated. */
module Timer {
  import opened Wrappers

  datatype Mode = Pomodoro | Short | Long

  /** The `modes` table: the length of each mode, in seconds. */
  datatype Durations = Durations(pomodoro: int, short: int, long: int) {
    /** `modes[m]`. */
    function Of(m: Mode): int {
      match m
      case Pomodoro => pomodoro
      case Short => short
      case Long => long
    }
  }

  /** The table the renderer starts with: 20, 5 and 15 minutes. */
  const InitialDurations := Durations(20 * 60, 5 * 60, 15 * 60)

  /** Every duration is a whole number of minutes within the range the
      settings dialog clamps to: 1-120, 1-60 and 1-90 minutes. */
  predicate DurationsValid(d: Durations) {
    && 60 <= d.pomodoro <= 120 * 60 && d.pomodoro % 60 == 0
    && 60 <= d.short <= 60 * 60 && d.short % 60 == 0
    && 60 <= d.long <= 90 * 60 && d.long % 60 == 0
  }

  /** `Math.max(lo, Math.min(hi, x))`: the point of [lo, hi] nearest to `x`. */
  function Clamp(x: int, lo: int, hi: int): (r: int)
    requires lo <= hi
    ensures lo <= r <= hi
    ensures forall y :: lo <= y <= hi ==> Distance(r, x) <= Distance(y, x)
  {
    if x < lo then lo else if x > hi then hi else x
  }

  function Distance(a: int, b: int): nat {
    if a < b then b - a else a - b
  }

  /** The table the save handler writes: each minute field, or its default
      when the field is empty, clamped to its range and turned into seconds. */
  function SettingsDurations(pomodoro: Option<int>, short: Option<int>, long: Option<int>): (d: Durations)
    ensures DurationsValid(d)
    ensures 1 <= pomodoro.GetOr(20) <= 120 ==> d.pomodoro == pomodoro.GetOr(20) * 60
    ensures 1 <= short.GetOr(5) <= 60 ==> d.short == short.GetOr(5) * 60
    ensures 1 <= long.GetOr(15) <= 90 ==> d.long == long.GetOr(15) * 60
    ensures pomodoro.GetOr(20) < 1 ==> d.pomodoro == 60
    ensures pomodoro.GetOr(20) > 120 ==> d.pomodoro == 120 * 60
    ensures short.GetOr(5) < 1 ==> d.short == 60
    ensures short.GetOr(5) > 60 ==> d.short == 60 * 60
    ensures long.GetOr(15) < 1 ==> d.long == 60
    ensures long.GetOr(15) > 90 ==> d.long == 90 * 60
  {
    Durations(Clamp(pomodoro.GetOr(20), 1, 120) * 60,
              Clamp(short.GetOr(5), 1, 60) * 60,
              Clamp(long.GetOr(15), 1, 90) * 60)
  }

  /** The module-level timer variables together with the host's interval
      registry: `armed` holds the handles of intervals that are set, and
      `nextHandle` is the handle the next `setInterval` returns. */
  datatype TimerState = TimerState(
    modes: Durations,
    mode: Mode,
    remaining: int,
    running: bool,
    timerId: Option<nat>,
    armed: set<nat>,
    nextHandle: nat)

  /** The state when the renderer loads. */
  function Initial(): TimerState {
    TimerState(InitialDurations, Pomodoro, InitialDurations.Of(Pomodoro), false, None, {}, 0)
  }

  /** What every operation keeps: valid durations, a non-negative countdown,
      and `running` exactly when the interval named by `timerId` is the one
      armed interval. */
  predicate Valid(st: TimerState) {
    && DurationsValid(st.modes)
    && st.remaining >= 0
    && (st.running ==> st.timerId.Some? && st.armed == {st.timerId.value})
    && (!st.running ==> st.armed == {})
  }

  /** The countdown does not exceed the length of the current mode. */
  predicate Bounded(st: TimerState) {
    st.remaining <= st.modes.Of(st.mode)
  }

  /** `clearInterval(timerId)`: disarms that interval if it is armed; a
      `null` handle changes nothing. */
  function ClearInterval(armed: set<nat>, id: Option<nat>): set<nat> {
    match id
    case None => armed
    case Some(h) => armed - {h}
  }

  /** `tick`. */
  function TickStep(st: TimerState): TimerState {
    if st.remaining > 0 then st.(remaining := st.remaining - 1)
    else st.(armed := ClearInterval(st.armed, st.timerId), running := false)
  }

  /** `start`. */
  function StartStep(st: TimerState): TimerState {
    if st.running then st
    else st.(running := true, timerId := Some(st.nextHandle),
             armed := st.armed + {st.nextHandle}, nextHandle := st.nextHandle + 1)
  }

  /** `pause`. */
  function PauseStep(st: TimerState): TimerState {
    st.(running := false, armed := ClearInterval(st.armed, st.timerId))
  }

  /** `reset`: pause, then refill the countdown from the current mode. */
  function ResetStep(st: TimerState): TimerState {
    var p := PauseStep(st);
    p.(remaining := p.modes.Of(p.mode))
  }

  /** `switchMode(m)`: select `m`, refill the countdown, then pause. */
  function SwitchStep(st: TimerState, m: Mode): TimerState {
    PauseStep(st.(mode := m, remaining := st.modes.Of(m)))
  }

  /** The start/pause button and the Space key: `running ? pause() : start()`. */
  function ToggleStep(st: TimerState): TimerState {
    if st.running then PauseStep(st) else StartStep(st)
  }

  /** The settings save handler. */
  function SaveStep(st: TimerState, pomodoro: Option<int>, short: Option<int>, long: Option<int>): TimerState {
    var d := SettingsDurations(pomodoro, short, long);
    if st.running then st.(modes := d) else st.(modes := d, remaining := d.Of(st.mode))
  }

  /** `n` successive ticks. */
  function Ticks(st: TimerState, n: nat): TimerState
    decreases n
  {
    if n == 0 then st else Ticks(TickStep(st), n - 1)
  }

  /** The end-of-interval notification's title and body. */
  datatype Notice = Notice(title: string, body: string)

  /** `notifyEnd(mode)`: one message after a focus interval, another after
      either break. */
  function EndNotice(m: Mode): (n: Notice)
    ensures n.title == "Pomodoro selesai" <==> m == Pomodoro
    ensures n.title == "Break selesai" <==> m != Pomodoro
  {
    if m == Pomodoro then Notice("Pomodoro selesai", "Waktunya istirahat sebentar.")
    else Notice("Break selesai", "Ayo kembali fokus!")
  }

  // ---------------------------------------------------------------------
  // Properties of the operations
  // ---------------------------------------------------------------------

  lemma InitialValid()
    ensures Valid(Initial()) && Bounded(Initial())
    ensures Initial().remaining == 1200 && !Initial().running && Initial().armed == {}
  {
  }

  /** `running` holds exactly when an interval is armed, and never more than one is. */
  lemma RunningIffArmed(st: TimerState)
    requires Valid(st)
    ensures st.running <==> st.armed != {}
    ensures |st.armed| <= 1
  {
  }

  /** A tick with time left takes exactly one second off and changes nothing else. */
  lemma TickCountsDown(st: TimerState)
    requires Valid(st) && st.remaining > 0
    ensures var r := TickStep(st);
      && r.remaining == st.remaining - 1
      && r.running == st.running && r.mode == st.mode && r.modes == st.modes
      && r.armed == st.armed && r.timerId == st.timerId
      && Valid(r)
  {
  }

  /** A tick at zero stops the timer and disarms its interval; the countdown
      stays at zero. */
  lemma TickAtZeroStops(st: TimerState)
    requires Valid(st) && st.remaining == 0
    ensures var r := TickStep(st);
      && !r.running && r.armed == {} && r.remaining == 0
      && r.mode == st.mode && r.modes == st.modes
      && Valid(r)
  {
  }

  /** Ticking keeps both invariants. */
  lemma TickPreserves(st: TimerState)
    requires Valid(st)
    ensures Valid(TickStep(st))
    ensures Bounded(st) ==> Bounded(TickStep(st))
  {
  }

  /** While time is left, `k` ticks take `k` seconds off and the timer keeps
      running with the same interval armed. */
  lemma {:induction false} CountdownPrefix(st: TimerState, k: nat)
    requires Valid(st) && st.running && k <= st.remaining
    ensures var r := Ticks(st, k);
      && Valid(r) && r.running && r.remaining == st.remaining - k
      && r.mode == st.mode && r.modes == st.modes && r.armed == st.armed
    decreases k
  {
    if k > 0 {
      CountdownPrefix(TickStep(st), k - 1);
    }
  }

  /** Completion is seen one tick late: from `N` seconds left, `N` ticks
      reach zero with the timer still running, and tick `N + 1` stops it. */
  lemma CountdownCompletes(st: TimerState)
    requires Valid(st) && st.running
    ensures var r := Ticks(st, st.remaining);
      && r.remaining == 0 && r.running && r.armed == st.armed
      && !TickStep(r).running && TickStep(r).armed == {} && TickStep(r).remaining == 0
  {
    CountdownPrefix(st, st.remaining);
  }

  /** From the initial state, start and 1200 ticks show 00:00 with the timer
      still running; the 1201st tick ends the interval. */
  lemma DefaultPomodoroRun()
    ensures var r := Ticks(StartStep(Initial()), 1200);
      r.remaining == 0 && r.running && !TickStep(r).running
  {
    CountdownCompletes(StartStep(Initial()));
  }

  /** `start` does nothing while running; otherwise it starts the timer with
      exactly one, freshly armed, interval. */
  lemma StartIsGuarded(st: TimerState)
    requires Valid(st)
    ensures st.running ==> StartStep(st) == st
    ensures !st.running ==> var r := StartStep(st);
      r.running && r.timerId == Some(st.nextHandle) && r.armed == {st.nextHandle}
      && r.remaining == st.remaining && r.mode == st.mode && r.modes == st.modes
    ensures Valid(StartStep(st))
    ensures Bounded(st) ==> Bounded(StartStep(st))
  {
  }

  /** `pause` stops the timer and disarms its interval; pausing twice is
      pausing once. */
  lemma PauseIsIdempotent(st: TimerState)
    requires Valid(st)
    ensures var r := PauseStep(st);
      !r.running && r.armed == {} && r.remaining == st.remaining
      && r.mode == st.mode && r.modes == st.modes
    ensures PauseStep(PauseStep(st)) == PauseStep(st)
    ensures Valid(PauseStep(st))
    ensures Bounded(st) ==> Bounded(PauseStep(st))
  {
  }

  /** The start/pause button flips `running` and keeps the invariant. */
  lemma ToggleFlips(st: TimerState)
    requires Valid(st)
    ensures ToggleStep(st).running == !st.running
    ensures Valid(ToggleStep(st))
    ensures Bounded(st) ==> Bounded(ToggleStep(st))
  {
  }

  /** `reset` leaves the timer paused with a full countdown for the current
      mode, whatever state it was in. */
  lemma ResetRefills(st: TimerState)
    requires Valid(st)
    ensures var r := ResetStep(st);
      && !r.running && r.armed == {}
      && r.remaining == st.modes.Of(st.mode)
      && r.mode == st.mode && r.modes == st.modes
      && Valid(r) && Bounded(r)
  {
  }

  /** `switchMode(m)` selects `m` and leaves the timer paused with a full
      countdown for `m`. */
  lemma SwitchRefills(st: TimerState, m: Mode)
    requires Valid(st)
    ensures var r := SwitchStep(st, m);
      && !r.running && r.armed == {}
      && r.mode == m && r.remaining == st.modes.Of(m) && r.modes == st.modes
      && Valid(r) && Bounded(r)
  {
  }

  /** Saving rewrites the three durations; a paused timer is refilled from
      the new table, a running one keeps counting from where it was. */
  lemma SaveRewritesDurations(st: TimerState, p: Option<int>, s: Option<int>, l: Option<int>)
    requires Valid(st)
    ensures var r := SaveStep(st, p, s, l);
      && r.modes == SettingsDurations(p, s, l)
      && r.running == st.running && r.armed == st.armed && r.mode == st.mode
      && (!st.running ==> r.remaining == r.modes.Of(r.mode))
      && (st.running ==> r.remaining == st.remaining)
      && Valid(r)
      && (!st.running ==> Bounded(r))
  {
  }

  /** Empty fields take the defaults; out-of-range entries are pinned to the
      nearest end of their range. */
  lemma SettingsExamples()
    ensures SettingsDurations(None, None, None) == InitialDurations
    ensures SettingsDurations(Some(0), Some(0), Some(0)) == Durations(60, 60, 60)
    ensures SettingsDurations(Some(500), Some(500), Some(500)) == Durations(7200, 3600, 5400)
    ensures SettingsDurations(Some(-3), Some(61), Some(45)) == Durations(60, 3600, 2700)
  {
  }

  /** Saving shorter durations while running can leave more time on the
      countdown than the current mode now lasts. */
  lemma SaveWhileRunningCanExceed()
    ensures var st := StartStep(Initial());
      var r := SaveStep(st, Some(1), None, None);
      Valid(st) && Bounded(st) && Valid(r) && !Bounded(r)
      && r.remaining == 1200 && r.modes.Of(r.mode) == 60
  {
  }

  // ---------------------------------------------------------------------
  // The renderer's timer object
  // ---------------------------------------------------------------------

  /** The module-level variables of the renderer as one object. */
  class PomodoroTimer {
    var modes: Durations
    var currentMode: Mode
    var remaining: int
    var running: bool
    var timerId: Option<nat>
    var armed: set<nat>
    var nextHandle: nat

    function State(): TimerState
      reads this
    {
      TimerState(modes, currentMode, remaining, running, timerId, armed, nextHandle)
    }

    constructor ()
      ensures State() == Initial()
      ensures Valid(State()) && Bounded(State())
    {
      modes := InitialDurations;
      currentMode := Pomodoro;
      remaining := InitialDurations.Of(Pomodoro);
      timerId := None;
      running := false;
      armed := {};
      nextHandle := 0;
    }

    /** `tick`, called by the armed interval, so only while running; the
        notice is the one shown, with the beep, when the interval ends. */
    method Tick() returns (ended: Option<Notice>)
      requires Valid(State()) && running
      modifies this
      ensures State() == TickStep(old(State()))
      ensures Valid(State())
      ensures ended == if old(remaining) > 0 then None else Some(EndNotice(old(currentMode)))
    {
      if remaining > 0 {
        remaining := remaining - 1;
        ended := None;
      } else {
        armed := ClearInterval(armed, timerId);
        running := false;
        ended := Some(EndNotice(currentMode));
      }
      TickPreserves(old(State()));
    }

    method Start()
      requires Valid(State())
      modifies this
      ensures State() == StartStep(old(State()))
      ensures Valid(State())
    {
      if running {
        return;
      }
      running := true;
      var handle := nextHandle;
      nextHandle := nextHandle + 1;
      armed := armed + {handle};
      timerId := Some(handle);
      StartIsGuarded(old(State()));
    }

    method Pause()
      requires Valid(State())
      modifies this
      ensures State() == PauseStep(old(State()))
      ensures Valid(State())
    {
      running := false;
      armed := ClearInterval(armed, timerId);
      PauseIsIdempotent(old(State()));
    }

    method Reset()
      requires Valid(State())
      modifies this
      ensures State() == ResetStep(old(State()))
      ensures Valid(State()) && Bounded(State())
    {
      Pause();
      remaining := modes.Of(currentMode);
      ResetRefills(old(State()));
    }

    method SwitchMode(m: Mode)
      requires Valid(State())
      modifies this
      ensures State() == SwitchStep(old(State()), m)
      ensures Valid(State()) && Bounded(State())
    {
      currentMode := m;
      remaining := modes.Of(currentMode);
      Pause();
      SwitchRefills(old(State()), m);
    }

    /** The start/pause button's click handler. */
    method StartOrPause()
      requires Valid(State())
      modifies this
      ensures State() == ToggleStep(old(State()))
      ensures Valid(State())
    {
      if running {
        Pause();
      } else {
        Start();
      }
    }

    /** The save button's handler; `None` stands for an empty field. */
    method SaveSettings(pomodoro: Option<int>, short: Option<int>, long: Option<int>)
      requires Valid(State())
      modifies this
      ensures State() == SaveStep(old(State()), pomodoro, short, long)
      ensures Valid(State())
    {
      var p := Clamp(pomodoro.GetOr(20), 1, 120);
      var s := Clamp(short.GetOr(5), 1, 60);
      var l := Clamp(long.GetOr(15), 1, 90);
      modes := modes.(pomodoro := p * 60);
      modes := modes.(short := s * 60);
      modes := modes.(long := l * 60);
      if !running {
        remaining := modes.Of(currentMode);
      }
      SaveRewritesDurations(old(State()), pomodoro, short, long);
    }
  }
}

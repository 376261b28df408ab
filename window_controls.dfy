/** The `window-controls` handler of main.js and the `window-state`
    snapshot it shares with the window's event hooks. The Electron window
    is abstracted to four flags; `fullScreen` is absent on a window that
    offers no `isFullScreen` method. */
module WindowControls {
  import opened Wrappers

  /** The window's flags as one value. */
  datatype WindowRecord = WindowRecord(maximized: bool, minimized: bool,
                                       fullScreen: Option<bool>, closed: bool)

  /** The object sent to the renderer: `isMaximized`, `isMinimized`,
      `isFullScreen`. */
  datatype WindowState = WindowState(isMaximized: bool, isMinimized: bool, isFullScreen: bool)

  /** What the handler returns: `null`, `true`/`false`, or a state object. */
  datatype Reply = Null | Flag(b: bool) | Snapshot(state: WindowState)

  /** The state object of a window. `isFullScreen?.() || false` is false when
      the method is missing. */
  function StateOf(w: WindowRecord): (s: WindowState)
    ensures s.isMaximized == w.maximized && s.isMinimized == w.minimized
    ensures s.isFullScreen <==> w.fullScreen == Some(true)
  {
    WindowState(w.maximized, w.minimized, w.fullScreen.GetOr(false))
  }

  const Actions := {"minimize", "toggleMaximize", "close", "state"}

  /** The `switch (action)` on a window that was found: the window after the
      action and the reply. */
  function Control(w: WindowRecord, action: string): (WindowRecord, Reply) {
    if action == "minimize" then (w.(minimized := true), Flag(true))
    else if action == "toggleMaximize" then
      var w' := w.(maximized := !w.maximized);
      (w', Flag(w'.maximized))
    else if action == "close" then (w.(closed := true), Flag(true))
    else if action == "state" then (w, Snapshot(StateOf(w)))
    else (w, Null)
  }

  /** The whole handler: with no owning window (`None`) every action answers
      `null`. */
  function Dispatch(w: Option<WindowRecord>, action: string): (Option<WindowRecord>, Reply) {
    match w
    case None => (None, Null)
    case Some(win) =>
      var (win', reply) := Control(win, action);
      (Some(win'), reply)
  }

  /** Without a window nothing changes and every action answers `null`. */
  lemma NoWindowAnswersNull(action: string)
    ensures Dispatch(None, action) == (None, Null)
  {
  }

  /** `toggleMaximize` flips the maximized flag, answers with the new value and
      leaves the other flags alone; toggling twice restores the window, and
      the two answers differ. */
  lemma ToggleFlipsMaximized(w: WindowRecord)
    ensures var (w1, r1) := Control(w, "toggleMaximize");
      && w1.maximized == !w.maximized && r1 == Flag(w1.maximized)
      && w1.minimized == w.minimized && w1.fullScreen == w.fullScreen
      && w1.closed == w.closed
      && var (w2, r2) := Control(w1, "toggleMaximize");
         w2 == w && r2 == Flag(w.maximized)
  {
  }

  /** The answer to `toggleMaximize` is what a following `state` query
      reports as `isMaximized`. */
  lemma ToggleAgreesWithState(w: WindowRecord)
    ensures var (w1, r1) := Control(w, "toggleMaximize");
      var (w2, r2) := Control(w1, "state");
      r2.Snapshot? && r1 == Flag(r2.state.isMaximized)
  {
  }

  /** `minimize` and `close` set their flag, change nothing else and answer
      `true`. */
  lemma MinimizeAndCloseAnswerTrue(w: WindowRecord)
    ensures Control(w, "minimize") == (w.(minimized := true), Flag(true))
    ensures Control(w, "close") == (w.(closed := true), Flag(true))
  {
  }

  /** `state` changes nothing and answers the window's flags; a window
      without full-screen support reports `isFullScreen` false. */
  lemma StateIsQuery(w: WindowRecord)
    ensures Control(w, "state").0 == w
    ensures Control(w, "state").1 == Snapshot(WindowState(w.maximized, w.minimized, w.fullScreen == Some(true)))
  {
  }

  /** The handler answers `null` exactly for an action it does not know or a
      missing window, and an unknown action leaves the window as it was. */
  lemma NullExactlyForUnknown(w: Option<WindowRecord>, action: string)
    ensures Dispatch(w, action).1 == Null <==> w.None? || action !in Actions
    ensures action !in Actions ==> Dispatch(w, action).0 == w
  {
  }

  /** The Electron window the handler acts on. */
  class Window {
    var maximized: bool
    var minimized: bool
    var fullScreen: Option<bool>
    var closed: bool

    function Record(): WindowRecord
      reads this
    {
      WindowRecord(maximized, minimized, fullScreen, closed)
    }

    constructor (fullScreenSupport: Option<bool>)
      ensures Record() == WindowRecord(false, false, fullScreenSupport, false)
    {
      maximized := false;
      minimized := false;
      fullScreen := fullScreenSupport;
      closed := false;
    }

    function IsMaximized(): (b: bool)
      reads this
      ensures b == Record().maximized
    {
      maximized
    }

    /** The flags that `sendState` sends on the `window-state` channel. */
    function SendState(): (s: WindowState)
      reads this
      ensures s == StateOf(Record())
    {
      WindowState(maximized, minimized, fullScreen.GetOr(false))
    }

    method Minimize()
      modifies this
      ensures Record() == old(Record()).(minimized := true)
    {
      minimized := true;
    }

    method Maximize()
      modifies this
      ensures Record() == old(Record()).(maximized := true)
    {
      maximized := true;
    }

    method Unmaximize()
      modifies this
      ensures Record() == old(Record()).(maximized := false)
    {
      maximized := false;
    }

    method Close()
      modifies this
      ensures Record() == old(Record()).(closed := true)
    {
      closed := true;
    }
  }

  /** The `window-controls` handler: `win` is the window found for the
      sender, `null` when there is none. */
  method HandleWindowControls(win: Window?, action: string) returns (r: Reply)
    modifies win
    ensures win == null ==> (None, r) == Dispatch(None, action)
    ensures win != null ==> (Some(win.Record()), r) == Dispatch(Some(old(win.Record())), action)
    ensures win != null ==> (win.Record(), r) == Control(old(win.Record()), action)
  {
    if win == null {
      return Null;
    }
    if action == "minimize" {
      win.Minimize();
      r := Flag(true);
    } else if action == "toggleMaximize" {
      if win.IsMaximized() {
        win.Unmaximize();
      } else {
        win.Maximize();
      }
      r := Flag(win.IsMaximized());
    } else if action == "close" {
      win.Close();
      r := Flag(true);
    } else if action == "state" {
      r := Snapshot(win.SendState());
    } else {
      r := Null;
    }
  }
}

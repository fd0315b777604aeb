/** Synthetic mouse events: the wires sent for one request, the virtual cursor and the held buttons
    (internal/capture/mouse.go). The byte layout of one wire belongs to the library that encodes it. */
module Mouse {
  import opened Common
  import opened Drag

  datatype Action = Click | Down | Up | Move | Glide | Scroll | Unknown

  /** The modifier keys held during an event. */
  datatype Mods = Mods(shift: bool, alt: bool, ctrl: bool)

  datatype Request = Request(
    action: Action, button: string, at: Point, to: Point, mods: Mods, clicks: int, amount: int, force: bool)

  /** What the application negotiated, and the size of its screen. */
  datatype Screen = Screen(cols: int, rows: int, enabled: bool, sgr: bool)

  /** One encoded event; no button means the "none" code. */
  datatype Wire = Wire(button: Option<string>, at: Point, motion: bool, release: bool, mods: Mods, sgr: bool)

  datatype MouseState = MouseState(cursor: Point, held: set<string>)

  datatype MouseError = ErrMouseDisabled | ErrMouseOutOfBounds | ErrMouseButton | ErrMouseAction

  datatype Outcome = Outcome(state: MouseState, result: Result<seq<Wire>, MouseError>)

  const WHEELS: set<string> := {"wheelup", "wheeldown", "wheelleft", "wheelright"}

  const BUTTONS: set<string> :=
    {"left", "middle", "right", "backward", "forward", "button10", "button11"} + WHEELS

  function LowerChar(c: char): char {
    if 'A' <= c <= 'Z' then c + 32 as char else c
  }

  function Lower(s: string): string {
    seq(|s|, i requires 0 <= i < |s| => LowerChar(s[i]))
  }

  /** A button is named by its lower-case name; the empty name means no button. */
  function ButtonFor(name: string): Result<Option<string>, MouseError> {
    if name == "" || name == "none" then Ok(None)
    else if Lower(name) in BUTTONS then Ok(Some(Lower(name)))
    else Err(ErrMouseButton)
  }

  predicate OnScreen(s: Screen, p: Point) {
    0 <= p.col < s.cols && 0 <= p.row < s.rows
  }

  predicate InBounds(s: Screen, ev: Request) {
    OnScreen(s, ev.at) && (ev.action.Glide? ==> OnScreen(s, ev.to))
  }

  /** What a search for some held button can find. */
  predicate CanPick(held: set<string>, pick: Option<string>) {
    if pick.Some? then pick.value in held && pick.value in BUTTONS else held * BUTTONS == {}
  }

  function Marked(held: set<string>, name: string, down: bool): set<string> {
    if name == "" || name == "none" then held else if down then held + {name} else held - {name}
  }

  function Or(button: Option<string>, pick: Option<string>): string {
    if button.Some? then button.value else if pick.Some? then pick.value else "left"
  }

  function Glided(path: seq<Point>, button: string, mods: Mods, sgr: bool): seq<Wire> {
    seq(|path|, i requires 0 <= i < |path| => Wire(Some(button), path[i], true, false, mods, sgr))
  }

  function Clicks(n: nat, button: string, at: Point, mods: Mods, sgr: bool): seq<Wire> {
    if n == 0 then []
    else
      Clicks(n - 1, button, at, mods, sgr)
      + [Wire(Some(button), at, false, false, mods, sgr), Wire(None, at, false, true, mods, sgr)]
  }

  function Steps(n: nat, button: string, at: Point, mods: Mods, sgr: bool): seq<Wire> {
    seq(n, i requires i >= 0 => Wire(Some(button), at, false, false, mods, sgr))
  }

  /** The wires of an accepted request and the buttons held after it. */
  function Acted(held: set<string>, ev: Request, btn: Option<string>, pick: Option<string>, sgr: bool)
    : Result<(seq<Wire>, set<string>), MouseError>
  {
    match ev.action
    case Click =>
      if btn.None? then Err(ErrMouseButton)
      else Ok((Clicks(Max(ev.clicks, 1), btn.value, ev.at, ev.mods, sgr), Marked(held, ev.button, false)))
    case Down =>
      if btn.None? then Err(ErrMouseButton)
      else Ok(([Wire(btn, ev.at, false, false, ev.mods, sgr)], Marked(held, ev.button, true)))
    case Up => Ok(([Wire(None, ev.at, false, true, ev.mods, sgr)], Marked(held, Or(btn, pick), false)))
    case Move => Ok(([Wire(None, ev.at, true, false, ev.mods, sgr)], held))
    case Glide =>
      var path := Path(ev.at.col, ev.at.row, ev.to.col, ev.to.row);
      Ok((Glided(path, Or(btn, pick), ev.mods, sgr), Marked(held, Or(btn, pick), true)))
    case Scroll =>
      if btn.None? || btn.value !in WHEELS then Err(ErrMouseButton)
      else Ok((Steps(Max(ev.amount, 1), btn.value, ev.at, ev.mods, sgr), held))
    case Unknown => Err(ErrMouseAction)
  }

  function Handled(m: MouseState, s: Screen, ev: Request, pick: Option<string>): Outcome {
    if !s.enabled && !ev.force then Outcome(m, Err(ErrMouseDisabled))
    else if !InBounds(s, ev) then Outcome(m, Err(ErrMouseOutOfBounds))
    else if ButtonFor(ev.button).Err? then Outcome(m, Err(ErrMouseButton))
    else
      match Acted(m.held, ev, ButtonFor(ev.button).value, pick, s.sgr || !s.enabled)
      case Err(e) => Outcome(m, Err(e))
      case Ok(done) =>
        Outcome(MouseState(if ev.action.Glide? then ev.to else ev.at, done.1), Ok(done.0))
  }

  function WasReset(m: MouseState): MouseState {
    m.(held := {})
  }

  class Emulator {
    var mouseCol: int
    var mouseRow: int
    var mouseHeld: set<string>

    ghost function State(): MouseState
      reads this
    {
      MouseState(Point(mouseCol, mouseRow), mouseHeld)
    }

    method HeldButton() returns (pick: Option<string>)
      ensures CanPick(mouseHeld, pick)
    {
      var rest := mouseHeld;
      while rest != {}
        invariant rest <= mouseHeld && (mouseHeld - rest) * BUTTONS == {}
        decreases |rest|
      {
        var name :| name in rest;
        if name in BUTTONS {
          return Some(name);
        }
        rest := rest - {name};
      }
      return None;
    }

    method MarkHeld(button: string, held: bool)
      modifies this`mouseHeld
      ensures mouseHeld == Marked(old(mouseHeld), button, held)
    {
      if button == "" || button == "none" {
        return;
      }
      mouseHeld := if held then mouseHeld + {button} else mouseHeld - {button};
    }

    /** A reset in the application's output forgets what is held. */
    method OnRIS()
      modifies this`mouseHeld
      ensures State() == WasReset(old(State()))
    {
      mouseHeld := {};
    }

    method EncodeMouse(s: Screen, ev: Request) returns (r: Result<seq<Wire>, MouseError>)
      modifies this
      ensures exists pick :: CanPick(old(mouseHeld), pick) && Outcome(State(), r) == Handled(old(State()), s, ev, pick)
    {
      hide Lower, Marked, Path, OnScreen, CanPick;
      var pick := HeldButton();
      ghost var was := State();
      if !s.enabled && !ev.force {
        assert Outcome(State(), Err(ErrMouseDisabled)) == Handled(was, s, ev, pick);
        return Err(ErrMouseDisabled);
      }
      var sgr := s.sgr || (!s.enabled && ev.force);
      if !InBounds(s, ev) {
        assert Outcome(State(), Err(ErrMouseOutOfBounds)) == Handled(was, s, ev, pick);
        return Err(ErrMouseOutOfBounds);
      }
      var named := ButtonFor(ev.button);
      if named.Err? {
        assert Outcome(State(), Err(ErrMouseButton)) == Handled(was, s, ev, pick);
        return Err(ErrMouseButton);
      }
      var btn, out := named.value, [];
      match ev.action {
        case Click =>
          if btn.None? {
            assert Outcome(State(), Err(ErrMouseButton)) == Handled(was, s, ev, pick);
            return Err(ErrMouseButton);
          }
          for i := 0 to Max(ev.clicks, 1)
            invariant out == Clicks(i, btn.value, ev.at, ev.mods, sgr)
            invariant State() == was
          {
            out := out + [Wire(btn, ev.at, false, false, ev.mods, sgr)] + [Wire(None, ev.at, false, true, ev.mods, sgr)];
          }
          MarkHeld(ev.button, false);
        case Down =>
          if btn.None? {
            assert Outcome(State(), Err(ErrMouseButton)) == Handled(was, s, ev, pick);
            return Err(ErrMouseButton);
          }
          out := [Wire(btn, ev.at, false, false, ev.mods, sgr)];
          MarkHeld(ev.button, true);
        case Up =>
          out := [Wire(None, ev.at, false, true, ev.mods, sgr)];
          MarkHeld(Or(btn, pick), false);
        case Move =>
          out := [Wire(None, ev.at, true, false, ev.mods, sgr)];
        case Glide =>
          var path := Interpolate(ev.at.col, ev.at.row, ev.to.col, ev.to.row);
          for i := 0 to |path|
            invariant out == Glided(path, Or(btn, pick), ev.mods, sgr)[..i]
            invariant State() == was
          {
            out := out + [Wire(Some(Or(btn, pick)), path[i], true, false, ev.mods, sgr)];
          }
          assert out == Glided(path, Or(btn, pick), ev.mods, sgr);
          MarkHeld(Or(btn, pick), true);
        case Scroll =>
          if btn.None? || btn.value !in WHEELS {
            assert Outcome(State(), Err(ErrMouseButton)) == Handled(was, s, ev, pick);
            return Err(ErrMouseButton);
          }
          for i := 0 to Max(ev.amount, 1)
            invariant out == Steps(i, btn.value, ev.at, ev.mods, sgr)
            invariant State() == was
          {
            out := out + [Wire(btn, ev.at, false, false, ev.mods, sgr)];
          }
        case Unknown =>
          assert Outcome(State(), Err(ErrMouseAction)) == Handled(was, s, ev, pick);
          return Err(ErrMouseAction);
      }
      mouseCol, mouseRow := ev.at.col, ev.at.row;
      if ev.action.Glide? {
        mouseCol, mouseRow := ev.to.col, ev.to.row;
      }
      assert Outcome(State(), Ok(out)) == Handled(was, s, ev, pick);
      r := Ok(out);
    }
  }

  // ---------------------------------------------------------------------------
  // Properties

  lemma {:induction false} ClicksStay(n: nat, button: string, at: Point, mods: Mods, sgr: bool)
    ensures |Clicks(n, button, at, mods, sgr)| == 2 * n
    ensures forall w :: w in Clicks(n, button, at, mods, sgr) ==> w.at == at
  {
    if n > 0 {
      ClicksStay(n - 1, button, at, mods, sgr);
    }
  }

  /** Every accepted request sends at least one event, all of them on the screen, and leaves the virtual
      cursor where the last one was; a refused request changes nothing. */
  lemma WiresOnScreenAndCursorFollows(m: MouseState, s: Screen, ev: Request, pick: Option<string>)
    ensures var o := Handled(m, s, ev, pick);
            && (o.result.Err? ==> o.state == m)
            && (o.result.Ok? ==>
                  var ws := o.result.value;
                  && ws != [] && ws[|ws| - 1].at == o.state.cursor
                  && forall i :: 0 <= i < |ws| ==> OnScreen(s, ws[i].at))
  {
    hide Lower, Path, Marked;
    var o := Handled(m, s, ev, pick);
    if o.result.Ok? {
      if ev.action.Click? {
        ClicksStay(Max(ev.clicks, 1), ButtonFor(ev.button).value.value, ev.at, ev.mods, s.sgr || !s.enabled);
      } else if ev.action.Glide? {
        GlidedOnScreen(s, ev, o.result.value, Or(ButtonFor(ev.button).value, pick), s.sgr || !s.enabled);
      }
    }
  }

  // What is sent, action by action

  lemma {:induction false} ClicksAlternate(n: nat, button: string, at: Point, mods: Mods, sgr: bool)
    ensures |Clicks(n, button, at, mods, sgr)| == 2 * n
    ensures forall i :: 0 <= i < 2 * n ==>
              Clicks(n, button, at, mods, sgr)[i]
              == if i % 2 == 0 then Wire(Some(button), at, false, false, mods, sgr) else Wire(None, at, false, true, mods, sgr)
    decreases n
  {
    if n > 0 {
      ClicksAlternate(n - 1, button, at, mods, sgr);
    }
  }

  /** The button an event is about: the one named, or else a held one, or else the left one. */
  function Chosen(ev: Request, pick: Option<string>): string {
    if ev.button != "" && ev.button != "none" then Lower(ev.button) else if pick.Some? then pick.value else "left"
  }

  /** The events that a request sends. A click presses and releases; down presses, up releases without naming a
      button, move moves without one; a drag moves with its button along the path; and a scroll presses the wheel. They are
      SGR encoded if that was negotiated, and also if the request is forced. */
  lemma Sends(m: MouseState, s: Screen, ev: Request, pick: Option<string>)
    requires Handled(m, s, ev, pick).result.Ok?
    ensures var ws, sgr, named := Handled(m, s, ev, pick).result.value, s.sgr || !s.enabled, Some(Lower(ev.button));
            match ev.action
            case Click =>
              && |ws| == 2 * Max(1, ev.clicks)
              && forall i :: 0 <= i < |ws| ==>
                   ws[i] == if i % 2 == 0 then Wire(named, ev.at, false, false, ev.mods, sgr) else Wire(None, ev.at, false, true, ev.mods, sgr)
            case Down => ws == [Wire(named, ev.at, false, false, ev.mods, sgr)]
            case Up => ws == [Wire(None, ev.at, false, true, ev.mods, sgr)]
            case Move => ws == [Wire(None, ev.at, true, false, ev.mods, sgr)]
            case Glide =>
              var path := Path(ev.at.col, ev.at.row, ev.to.col, ev.to.row);
              && |ws| == |path|
              && forall i :: 0 <= i < |ws| ==> ws[i] == Wire(Some(Chosen(ev, pick)), path[i], true, false, ev.mods, sgr)
            case Scroll =>
              && |ws| == Max(1, ev.amount)
              && forall i :: 0 <= i < |ws| ==> ws[i] == Wire(named, ev.at, false, false, ev.mods, sgr)
            case Unknown => false
  {
    hide Lower, Path, OnScreen, Marked;
    if ev.action.Click? {
      ClicksAlternate(Max(1, ev.clicks), Lower(ev.button), ev.at, ev.mods, s.sgr || !s.enabled);
    }
  }

  /** Which buttons are held after an accepted request: down adds the name asked for, and a drag its button; up
      takes its button away, and a click the name asked for. */
  lemma Holds(m: MouseState, s: Screen, ev: Request, pick: Option<string>)
    requires Handled(m, s, ev, pick).result.Ok? && CanPick(m.held, pick)
    ensures var m' := Handled(m, s, ev, pick).state;
            && m'.cursor == (if ev.action.Glide? then ev.to else ev.at)
            && m'.held == match ev.action
                          case Click => m.held - {ev.button}
                          case Down => m.held + {ev.button}
                          case Up => m.held - {Chosen(ev, pick)}
                          case Glide => m.held + {Chosen(ev, pick)}
                          case _ => m.held
  {
    hide Path, OnScreen, Glided, Clicks, Steps;
    LowerOfNone();
    ChosenIsButton(m.held, ev, pick);
  }

  lemma LowerOfNone()
    ensures forall name :: name == "" || name == "none" ==> name !in BUTTONS && Lower(name) !in BUTTONS
  {
    assert Lower("") == "" && Lower("none") == "none";
  }

  lemma ChosenIsButton(held: set<string>, ev: Request, pick: Option<string>)
    requires ButtonFor(ev.button).Ok? && CanPick(held, pick)
    ensures Or(ButtonFor(ev.button).value, pick) == Chosen(ev, pick) && Chosen(ev, pick) in BUTTONS
  {
  }

  /** A request is refused if the application did not ask for mouse events and it is not forced; if it is off the
      screen; if its button is unknown, or missing for a click, a press or, being no wheel, for a scroll; and if
      its action is unknown. The first of these that holds is reported. */
  lemma RefusedBecause(m: MouseState, s: Screen, ev: Request, pick: Option<string>)
    ensures var r, bare := Handled(m, s, ev, pick).result, ev.button == "" || ev.button == "none";
            r == (if !s.enabled && !ev.force then Err(ErrMouseDisabled)
                  else if !(0 <= ev.at.col < s.cols && 0 <= ev.at.row < s.rows) then Err(ErrMouseOutOfBounds)
                  else if ev.action.Glide? && !(0 <= ev.to.col < s.cols && 0 <= ev.to.row < s.rows) then Err(ErrMouseOutOfBounds)
                  else if !bare && Lower(ev.button) !in BUTTONS then Err(ErrMouseButton)
                  else if bare && (ev.action.Click? || ev.action.Down? || ev.action.Scroll?) then Err(ErrMouseButton)
                  else if ev.action.Scroll? && Lower(ev.button) !in WHEELS then Err(ErrMouseButton)
                  else if ev.action.Unknown? then Err(ErrMouseAction)
                  else Ok(if r.Ok? then r.value else []))
  {
    hide Lower, Path, Marked, Glided, Clicks, Steps;
  }

  /** Lower-casing changes the letters A to Z only. */
  lemma LowerIs(s: string)
    ensures |Lower(s)| == |s|
    ensures forall i :: 0 <= i < |s| ==>
              if 'A' <= s[i] <= 'Z' then 'a' <= Lower(s)[i] <= 'z' && Lower(s)[i] - 'a' == s[i] - 'A' else Lower(s)[i] == s[i]
  {
  }

  lemma GlidedOnScreen(s: Screen, ev: Request, ws: seq<Wire>, button: string, sgr: bool)
    requires InBounds(s, ev) && ev.action.Glide?
    requires ws == Glided(Path(ev.at.col, ev.at.row, ev.to.col, ev.to.row), button, ev.mods, sgr)
    ensures ws != [] && ws[|ws| - 1].at == ev.to
    ensures forall i :: 0 <= i < |ws| ==> OnScreen(s, ws[i].at)
  {
    hide Path, Along;
    PathEnds(ev.at.col, ev.at.row, ev.to.col, ev.to.row);
    forall i | 0 <= i < |ws|
      ensures OnScreen(s, ws[i].at)
    {
      PathInside(ev.at.col, ev.at.row, ev.to.col, ev.to.row, i);
    }
  }

  predicate Accepted(name: string) {
    Lower(name) in BUTTONS
  }

  /** Held names are names of buttons, in whatever case they were asked for. */
  lemma HeldAreAccepted(m: MouseState, s: Screen, ev: Request, pick: Option<string>)
    requires CanPick(m.held, pick) && forall n :: n in m.held ==> Accepted(n)
    ensures forall n :: n in Handled(m, s, ev, pick).state.held ==> Accepted(n)
  {
    LowerNames();
  }

  lemma LowerNames()
    ensures forall n :: n in BUTTONS ==> Lower(n) == n
  {
    forall n | n in BUTTONS
      ensures Lower(n) == n
    {
    }
  }

  /** A bare "up" is meant to release whatever is held. It releases one held button if some held button was
      asked for by its lower-case name, and otherwise none: a held "LEFT" is not found, and stays held. */
  lemma BareUpReleasesIff(m: MouseState, s: Screen, ev: Request, pick: Option<string>)
    requires (forall n :: n in m.held ==> Accepted(n)) && CanPick(m.held, pick)
    requires ev.action.Up? && (ev.button == "" || ev.button == "none") && (s.enabled || ev.force) && InBounds(s, ev)
    ensures var held := Handled(m, s, ev, pick).state.held;
            && (held != m.held <==> exists n :: n in m.held && Lower(n) == n)
            && (held != m.held ==> exists n :: n in m.held && held == m.held - {n})
  {
    LowerNames();
    hide Lower;
    var held := Handled(m, s, ev, pick).state.held;
    if pick.Some? {
      assert held == m.held - {pick.value} && Lower(pick.value) == pick.value;
    } else {
      assert forall n :: n in m.held && Lower(n) == n ==> n in m.held * BUTTONS;
    }
  }

  datatype Event = Asked(screen: Screen, request: Request, pick: Option<string>) | Reset

  function After(m: MouseState, e: Event): MouseState {
    match e
    case Asked(screen, request, pick) => Handled(m, screen, request, pick).state
    case Reset => WasReset(m)
  }

  function AfterAll(m: MouseState, evs: seq<Event>): MouseState {
    if evs == [] then m else After(AfterAll(m, evs[..|evs| - 1]), evs[|evs| - 1])
  }

  /** Whenever a held button was looked for, what was found could be found. */
  predicate Picked(m: MouseState, evs: seq<Event>) {
    evs != [] ==>
      var before, e := evs[..|evs| - 1], evs[|evs| - 1];
      Picked(m, before) && (e.Asked? ==> CanPick(AfterAll(m, before).held, e.pick))
  }

  lemma NamesButton(name: string)
    requires Accepted(name)
    ensures name != "" && name != "none" && ButtonFor(name) == Ok(Some(Lower(name)))
  {
    assert Lower("") == "" && Lower("none") == "none";
  }

  /** Pressing and then releasing a button by the same name leaves it held exactly when the name is not in
      lower case. */
  lemma PressThenRelease(m: MouseState, s: Screen, down: Request, up: Request, pick: Option<string>)
    requires down.action.Down? && up.action.Up? && up.button == down.button && Accepted(down.button)
    requires (s.enabled || (down.force && up.force)) && InBounds(s, down) && InBounds(s, up)
    ensures var held := Handled(Handled(m, s, down, None).state, s, up, pick).state.held;
            && held == (m.held + {down.button}) - {Lower(down.button)}
            && (down.button in held <==> Lower(down.button) != down.button)
  {
    NamesButton(down.button);
    hide Lower;
    var pressed := Handled(m, s, down, None).state;
    assert pressed.held == m.held + {down.button};
    assert Or(ButtonFor(up.button).value, pick) == Lower(down.button);
    assert Handled(pressed, s, up, pick).state.held == Marked(pressed.held, Lower(down.button), false);
  }

  /** The request is not refused, when it names a button. */
  predicate Takes(e: Event) {
    e.Asked? && (e.screen.enabled || e.request.force) && InBounds(e.screen, e.request)
  }

  /** The event presses, or clears, a button of exactly this name. */
  predicate Presses(e: Event, name: string) {
    Takes(e) && e.request.action.Down? && e.request.button == name
  }

  predicate Clears(e: Event, name: string) {
    e.Reset? || (Takes(e) && e.request.action.Click? && e.request.button == name)
  }

  /** A button found, or named, for a release or a drag goes by its lower-case name. */
  lemma OrIsLower(held: set<string>, button: string, pick: Option<string>, name: string)
    requires ButtonFor(button).Ok? && CanPick(held, pick) && Lower(name) != name
    ensures Or(ButtonFor(button).value, pick) != name
  {
    LowerNames();
    LowerTwice(button);
  }

  lemma HeldStep(m: MouseState, e: Event, name: string)
    requires Accepted(name) && Lower(name) != name && (e.Asked? ==> CanPick(m.held, e.pick))
    ensures name in After(m, e).held <==> Presses(e, name) || (name in m.held && !Clears(e, name))
  {
    hide Lower, Or, CanPick, OnScreen, Glided, Clicks, Steps, Path;
    NamesButton(name);
    if e.Asked? && ButtonFor(e.request.button).Ok? {
      OrIsLower(m.held, e.request.button, e.pick, name);
    }
  }

  /** From place `i` of the run on, nothing clears the button. */
  predicate Kept(evs: seq<Event>, name: string, i: nat) {
    forall j :: i <= j < |evs| ==> !Clears(evs[j], name)
  }

  predicate PressedAndKept(evs: seq<Event>, name: string) {
    exists i :: 0 <= i < |evs| && Presses(evs[i], name) && Kept(evs, name, i + 1)
  }

  lemma PressedSnoc(evs: seq<Event>, e: Event, name: string)
    ensures Kept(evs + [e], name, 0) <==> Kept(evs, name, 0) && !Clears(e, name)
    ensures PressedAndKept(evs + [e], name) <==> Presses(e, name) || (PressedAndKept(evs, name) && !Clears(e, name))
  {
    hide Presses, Clears;
    var all, n := evs + [e], |evs|;
    assert all[n] == e && forall j :: 0 <= j < n ==> all[j] == evs[j];
    if PressedAndKept(all, name) && !Presses(e, name) {
      var i :| 0 <= i < |all| && Presses(all[i], name) && Kept(all, name, i + 1);
      assert Presses(evs[i], name) && Kept(evs, name, i + 1) && !Clears(all[n], name);
    }
    if Presses(e, name) {
      assert Presses(all[n], name) && Kept(all, name, n + 1);
    } else if PressedAndKept(evs, name) && !Clears(e, name) {
      var i :| 0 <= i < |evs| && Presses(evs[i], name) && Kept(evs, name, i + 1);
      assert Presses(all[i], name) && Kept(all, name, i + 1);
    }
  }

  /** Over every run of requests and resets: a button named other than in lower case is held at the end if
      and only if it was pressed (or was held at the start) and since then there was neither a click by that
      very name nor a reset. No release by any name, and no drag, frees it. */
  lemma {:induction false} HeldForGood(m: MouseState, name: string, evs: seq<Event>)
    requires Accepted(name) && Lower(name) != name && Picked(m, evs)
    ensures name in AfterAll(m, evs).held
            <==> PressedAndKept(evs, name) || (name in m.held && Kept(evs, name, 0))
    decreases |evs|
  {
    if evs != [] {
      hide After, Presses, Clears, CanPick, Accepted, Lower, PressedAndKept, Kept;
      var before, e := evs[..|evs| - 1], evs[|evs| - 1];
      HeldForGood(m, name, before);
      HeldStep(AfterAll(m, before), e, name);
      assert evs == before + [e];
      PressedSnoc(before, e, name);
    }
  }

  lemma LowerTwice(s: string)
    ensures Lower(Lower(s)) == Lower(s)
  {
  }
}

/** The read-only monitor channel (internal/api/monitor_ws.go): dirty-row frames pushed on a tick. */
module Monitor {
  import opened Common
  import opened ScreenMirror

  datatype Line = Line(row: int, text: string)

  datatype DiffFrame = DiffFrame(
    version: nat, cols: nat, rows: nat, full: bool, cursor: Cursor, lines: seq<Line>)

  predicate Dirty(rows: seq<string>, baseline: seq<string>, full: bool, i: nat)
    requires i < |rows|
  {
    full || i >= |baseline| || baseline[i] != rows[i]
  }

  /** The dirty rows among the first `n`, in order. */
  function DirtyLines(rows: seq<string>, baseline: seq<string>, full: bool, n: nat): seq<Line>
    requires n <= |rows|
  {
    if n == 0 then []
    else DirtyLines(rows, baseline, full, n - 1)
         + if Dirty(rows, baseline, full, n - 1) then [Line(n - 1, rows[n - 1])] else []
  }

  function FrameOf(s: Screen, version: nat, baseline: seq<string>, full: bool): DiffFrame {
    DiffFrame(version, s.cols, |s.rows|, full, s.cursor, DirtyLines(s.rows, baseline, full, |s.rows|))
  }

  method BuildMirrorDiff(m: Mirror, baseline: seq<string>, full: bool) returns (frame: Option<DiffFrame>)
    ensures frame == if m.enabled then Some(FrameOf(m.View().screen, m.View().ver, baseline, full)) else None
  {
    var r := m.ScreenWithVersion();
    match r
    case Err(_) => return None;
    case Ok((snap, version)) =>
      var lines := [];
      for i := 0 to |snap.rows|
        invariant lines == DirtyLines(snap.rows, baseline, full, i)
      {
        if !full && i < |baseline| && baseline[i] == snap.rows[i] {
          continue;
        }
        lines := lines + [Line(i, snap.rows[i])];
      }
      frame := Some(DiffFrame(version, snap.cols, |snap.rows|, full, snap.cursor, lines));
  }

  function StartRows(frame: DiffFrame, baseline: seq<string>): (out: seq<string>)
    ensures |out| == frame.rows
  {
    seq(frame.rows, i requires 0 <= i < frame.rows => if !frame.full && i < |baseline| then baseline[i] else "")
  }

  function Patched(out: seq<string>, lines: seq<Line>): (r: seq<string>)
    ensures |r| == |out|
  {
    if lines == [] then out
    else
      var before := Patched(out, lines[..|lines| - 1]);
      var l := lines[|lines| - 1];
      if 0 <= l.row < |out| then before[l.row := l.text] else before
  }

  /** What a client holds after a frame: a full frame replaces its rows, a partial one patches them. */
  function Applied(frame: DiffFrame, baseline: seq<string>): seq<string> {
    Patched(StartRows(frame, baseline), frame.lines)
  }

  method ApplyDiff(frame: DiffFrame, baseline: seq<string>) returns (rows: seq<string>)
    ensures rows == Applied(frame, baseline)
  {
    var out := new string[frame.rows](_ => "");
    if !frame.full {
      forall i | 0 <= i < Min(frame.rows, |baseline|) {
        out[i] := baseline[i];
      }
    }
    assert out[..] == StartRows(frame, baseline);
    for k := 0 to |frame.lines|
      invariant out[..] == Patched(StartRows(frame, baseline), frame.lines[..k])
    {
      var l := frame.lines[k];
      assert frame.lines[..k + 1][..k] == frame.lines[..k];
      if l.row < 0 || l.row >= out.Length {
        continue;
      }
      out[l.row] := l.text;
    }
    assert frame.lines[..|frame.lines|] == frame.lines;
    rows := out[..];
  }

  lemma {:induction false} PatchDirty(rows: seq<string>, baseline: seq<string>, full: bool, out: seq<string>, n: nat)
    requires n <= |rows| == |out|
    requires forall i :: 0 <= i < |rows| && !Dirty(rows, baseline, full, i) ==> out[i] == rows[i]
    ensures var r := Patched(out, DirtyLines(rows, baseline, full, n));
            (forall i :: 0 <= i < n ==> r[i] == rows[i]) && (forall i :: n <= i < |rows| ==> r[i] == out[i])
  {
    if n > 0 {
      PatchDirty(rows, baseline, full, out, n - 1);
      var before := DirtyLines(rows, baseline, full, n - 1);
      if Dirty(rows, baseline, full, n - 1) {
        assert (before + [Line(n - 1, rows[n - 1])])[..|before|] == before;
      } else {
        assert before + [] == before;
      }
    }
  }

  /** Patching any rows at all with the frame built against them gives the screen's rows,
      and so does a full frame whatever the client held. */
  lemma FrameRebuildsScreen(s: Screen, version: nat, held: seq<string>)
    ensures Applied(FrameOf(s, version, held, false), held) == s.rows
    ensures Applied(FrameOf(s, version, [], true), held) == s.rows
  {
    PatchDirty(s.rows, held, false, StartRows(FrameOf(s, version, held, false), held), |s.rows|);
    PatchDirty(s.rows, [], true, StartRows(FrameOf(s, version, [], true), held), |s.rows|);
  }

  lemma {:induction false} NoLinesMeansSame(rows: seq<string>, baseline: seq<string>, n: nat)
    requires n <= |rows| && DirtyLines(rows, baseline, false, n) == []
    ensures n <= |baseline| && rows[..n] == baseline[..n]
  {
    if n > 0 {
      NoLinesMeansSame(rows, baseline, n - 1);
    }
  }

  // ---------------------------------------------------------------------------
  // The loop, one locked region at a time

  datatype Pc = NotPrimed | Waiting | Changed | Resizing | Closed

  datatype Loop = Loop(pc: Pc, baseline: seq<string>, lastVer: nat, lastCols: nat, lastRows: nat)

  // What the connected client shows, and how many frames it was sent.
  datatype Client = Client(cols: nat, rows: seq<string>, frames: nat)

  function Push(l: Loop, frame: DiffFrame): Loop {
    Loop(Waiting, Applied(frame, l.baseline), frame.version, frame.cols, frame.rows)
  }

  function Received(c: Client, frame: DiffFrame): Client {
    Client(frame.cols, Applied(frame, c.rows), c.frames + 1)
  }

  function Polled(l: Loop, ver: nat): Loop {
    if ver == l.lastVer then l else l.(pc := Changed)
  }

  /** After the partial frame was built: go back for a full one, skip it, or send it. */
  function Decide(l: Loop, frame: DiffFrame): (Loop, Option<DiffFrame>) {
    if frame.cols != l.lastCols || frame.rows != l.lastRows then (l.(pc := Resizing), None)
    else if frame.lines == [] then
      (l.(pc := Waiting, lastVer := frame.version, lastCols := frame.cols, lastRows := frame.rows), None)
    else (Push(l, frame), Some(frame))
  }

  class Subscription {
    const m: Mirror
    var loop: Loop

    constructor (m: Mirror)
      ensures this.m == m && loop == Loop(NotPrimed, [], 0, 0, 0)
    {
      this.m, loop := m, Loop(NotPrimed, [], 0, 0, 0);
    }

    /** The first frame, and the frame after a resize: the whole screen. */
    method SendFull() returns (frame: Option<DiffFrame>)
      modifies this
      ensures m.enabled ==>
                var f := FrameOf(m.View().screen, m.View().ver, [], true);
                frame == Some(f) && loop == Push(old(loop), f)
      ensures !m.enabled ==> frame == None && loop == old(loop).(pc := Closed)
    {
      frame := BuildMirrorDiff(m, [], true);
      match frame
      case None => loop := loop.(pc := Closed);
      case Some(f) =>
        var rows := ApplyDiff(f, loop.baseline);
        loop := Loop(Waiting, rows, f.version, f.cols, f.rows);
    }

    method Poll()
      modifies this
      ensures loop == Polled(old(loop), m.View().ver)
    {
      var v := m.MirrorVersion();
      if v != loop.lastVer {
        loop := loop.(pc := Changed);
      }
    }

    method SendDiff() returns (frame: Option<DiffFrame>)
      modifies this
      ensures m.enabled ==>
                (loop, frame) == Decide(old(loop), FrameOf(m.View().screen, m.View().ver, old(loop).baseline, false))
      ensures !m.enabled ==> frame == None && loop == old(loop).(pc := Closed)
    {
      var built := BuildMirrorDiff(m, loop.baseline, false);
      match built
      case None =>
        loop := loop.(pc := Closed);
        frame := None;
      case Some(f) =>
        if f.cols != loop.lastCols || f.rows != loop.lastRows {
          loop := loop.(pc := Resizing);
          frame := None;
        } else if |f.lines| == 0 {
          loop := Loop(Waiting, loop.baseline, f.version, f.cols, f.rows);
          frame := None;
        } else {
          var rows := ApplyDiff(f, loop.baseline);
          loop := Loop(Waiting, rows, f.version, f.cols, f.rows);
          frame := Some(f);
        }
    }
  }

  // ---------------------------------------------------------------------------
  // Every interleaving of output, resizes and ticks

  // screens[v] is what the mirror showed at version v.
  datatype Sys = Sys(mirror: MirrorState, loop: Loop, client: Client, screens: seq<Screen>)

  datatype Action =
    | DoOutput(next: Screen)
    | DoResize(cols: int, rows: int, redrawn: Screen)
    | DoPrime
    | DoPoll
    | DoDiff
    | DoFull
    | DoClose

  predicate IsMirrorAction(a: Action) {
    a.DoOutput? || a.DoResize?
  }

  predicate Enabled(s: Sys, a: Action) {
    match a
    case DoOutput(_) => true
    case DoResize(cols, rows, redrawn) => redrawn.cols == Max(1, cols) && |redrawn.rows| == Max(1, rows)
    case DoPrime => s.loop.pc.NotPrimed?
    case DoPoll => s.loop.pc.Waiting?
    case DoDiff => s.loop.pc.Changed?
    case DoFull => s.loop.pc.Resizing?
    case DoClose => !s.loop.pc.Closed?
  }

  function WithMirror(s: Sys, m: MirrorState): Sys {
    s.(mirror := m, screens := if m.ver == s.mirror.ver then s.screens else s.screens + [m.screen])
  }

  function WithFrame(s: Sys, l: Loop, frame: Option<DiffFrame>): Sys {
    s.(loop := l, client := match frame case Some(f) => Received(s.client, f) case None => s.client)
  }

  function Apply(s: Sys, a: Action): Sys
    requires Enabled(s, a)
  {
    match a
    case DoOutput(next) => WithMirror(s, Fed(s.mirror, next))
    case DoResize(cols, rows, redrawn) => WithMirror(s, Synced(s.mirror, cols, rows, redrawn))
    case DoPoll => s.(loop := Polled(s.loop, s.mirror.ver))
    case DoDiff =>
      var (l, frame) := Decide(s.loop, FrameOf(s.mirror.screen, s.mirror.ver, s.loop.baseline, false));
      WithFrame(s, l, frame)
    case DoClose => s.(loop := s.loop.(pc := Closed))
    case _ =>
      var frame := FrameOf(s.mirror.screen, s.mirror.ver, [], true);
      WithFrame(s, Push(s.loop, frame), Some(frame))
  }

  predicate IsStart(s: Sys) {
    && s.loop == Loop(NotPrimed, [], 0, 0, 0)
    && s.client == Client(0, [], 0)
    && s.mirror.ver == 0 && s.screens == [s.mirror.screen]
  }

  ghost predicate IsRun(ss: seq<Sys>, acts: seq<Action>) {
    && |ss| == |acts| + 1
    && IsStart(ss[0])
    && forall i :: 0 <= i < |acts| ==> Enabled(ss[i], acts[i]) && ss[i + 1] == Apply(ss[i], acts[i])
  }

  predicate Shows(c: Client, s: Screen) {
    c.cols == s.cols && c.rows == s.rows
  }

  ghost predicate Inv(s: Sys) {
    && |s.screens| == s.mirror.ver + 1
    && s.screens[s.mirror.ver] == s.mirror.screen
    && (s.client.frames == 0 ==> s.loop.pc.NotPrimed? || s.loop.pc.Closed?)
    && (s.client.frames > 0 ==>
          && !s.loop.pc.NotPrimed?
          && s.loop.lastVer <= s.mirror.ver
          && Shows(s.client, s.screens[s.loop.lastVer])
          && s.loop.baseline == s.client.rows
          && s.loop.lastCols == s.client.cols && s.loop.lastRows == |s.client.rows|)
  }

  lemma StepKeepsInv(s: Sys, a: Action)
    requires Inv(s) && Enabled(s, a)
    ensures Inv(Apply(s, a))
  {
    var screen, ver := s.mirror.screen, s.mirror.ver;
    match a
    case DoOutput(_) =>
    case DoResize(_, _, _) =>
    case DoPoll =>
    case DoClose =>
    case DoDiff =>
      FrameRebuildsScreen(screen, ver, s.loop.baseline);
      var frame := FrameOf(screen, ver, s.loop.baseline, false);
      if frame.lines == [] && frame.rows == s.loop.lastRows {
        NoLinesMeansSame(screen.rows, s.loop.baseline, |screen.rows|);
      }
    case _ =>
      FrameRebuildsScreen(screen, ver, s.loop.baseline);
      FrameRebuildsScreen(screen, ver, s.client.rows);
  }

  lemma {:induction false} RunKeepsInv(ss: seq<Sys>, acts: seq<Action>, i: nat)
    requires IsRun(ss, acts) && i < |ss|
    ensures Inv(ss[i])
  {
    if i > 0 {
      RunKeepsInv(ss, acts, i - 1);
      StepKeepsInv(ss[i - 1], acts[i - 1]);
    }
  }

  lemma {:induction false} ScreensPrefix(ss: seq<Sys>, acts: seq<Action>, i: nat, j: nat)
    requires IsRun(ss, acts) && i <= j < |ss|
    ensures ss[i].screens <= ss[j].screens
    decreases j
  {
    if i < j {
      ScreensPrefix(ss, acts, i, j - 1);
    }
  }

  /** A version number names one screen: two moments of a run with equal versions show the same. */
  lemma SameVersionSameScreen(ss: seq<Sys>, acts: seq<Action>, i: nat, j: nat)
    requires IsRun(ss, acts) && i <= j < |ss| && ss[i].mirror.ver == ss[j].mirror.ver
    ensures ss[i].mirror.screen == ss[j].mirror.screen
  {
    RunKeepsInv(ss, acts, i);
    RunKeepsInv(ss, acts, j);
    ScreensPrefix(ss, acts, i, j);
  }

  /** Once primed, the client shows exactly the size and rows the mirror had at version `lastVer`:
      there was a moment of the run with that version, and it showed what the client shows. */
  lemma ClientShowsLastVersion(ss: seq<Sys>, acts: seq<Action>, i: nat)
    requires IsRun(ss, acts) && i < |ss| && ss[i].client.frames > 0
    ensures exists j :: 0 <= j <= i && ss[j].mirror.ver == ss[i].loop.lastVer && Shows(ss[i].client, ss[j].mirror.screen)
    ensures ss[i].loop.baseline == ss[i].client.rows
  {
    RunKeepsInv(ss, acts, i);
    var j := VersionOccurred(ss, acts, i, ss[i].loop.lastVer);
    RunKeepsInv(ss, acts, j);
    ScreensPrefix(ss, acts, j, i);
  }

  lemma {:induction false} VersionOccurred(ss: seq<Sys>, acts: seq<Action>, i: nat, v: nat) returns (j: nat)
    requires IsRun(ss, acts) && i < |ss| && v <= ss[i].mirror.ver
    ensures j <= i && ss[j].mirror.ver == v
  {
    if v == ss[i].mirror.ver {
      j := i;
    } else {
      j := VersionOccurred(ss, acts, i - 1, v);
    }
  }

  /** One tick with no output or resize in it leaves the client showing the mirror's present screen,
      even though ticks before it may have been skipped. */
  lemma {:induction false} QuietTickResyncs(ss: seq<Sys>, acts: seq<Action>, i: nat, n: nat)
    requires IsRun(ss, acts) && i < n < |ss|
    requires acts[i] == DoPoll && ss[n].loop.pc.Waiting?
    requires forall k :: i <= k < n ==> !IsMirrorAction(acts[k])
    ensures ss[n].loop.lastVer == ss[n].mirror.ver && Shows(ss[n].client, ss[n].mirror.screen)
  {
    RunKeepsInv(ss, acts, n);
    QuietTickState(ss, acts, i, n);
  }

  lemma {:induction false} QuietTickState(ss: seq<Sys>, acts: seq<Action>, i: nat, n: nat)
    requires IsRun(ss, acts) && i < n < |ss| && acts[i] == DoPoll
    requires forall k :: i <= k < n ==> !IsMirrorAction(acts[k])
    ensures ss[n].mirror == ss[i].mirror
    ensures !ss[n].loop.pc.NotPrimed?
    ensures ss[n].loop.pc.Waiting? ==> ss[n].loop.lastVer == ss[n].mirror.ver
    decreases n
  {
    if i + 1 < n {
      QuietTickState(ss, acts, i, n - 1);
    }
  }

  lemma DiffStep(s: Sys)
    requires Inv(s) && Enabled(s, DoDiff)
    ensures var s' := Apply(s, DoDiff);
            if Shows(s.client, s.mirror.screen) then s'.client == s.client && s'.loop.pc.Waiting?
            else (s'.loop.pc.Resizing? && s'.client == s.client)
                 || (s'.loop.pc.Waiting? && s'.client.frames == s.client.frames + 1)
  {
    if Shows(s.client, s.mirror.screen) {
      NoDirtyLines(s.mirror.screen.rows, |s.mirror.screen.rows|);
    } else if DirtyLines(s.mirror.screen.rows, s.loop.baseline, false, |s.mirror.screen.rows|) == [] {
      NoLinesMeansSame(s.mirror.screen.rows, s.loop.baseline, |s.mirror.screen.rows|);
    }
  }

  /** While the loop owes a full frame, the client has not been sent one. */
  lemma {:induction false} ResizeSendsOne(ss: seq<Sys>, acts: seq<Action>, i: nat, n: nat)
    requires IsRun(ss, acts) && i < n < |ss| && ss[i].loop.pc.Resizing?
    requires forall k :: i < k < n ==> !ss[k].loop.pc.Waiting?
    ensures ss[n].loop.pc.Resizing? ==> ss[n].client == ss[i].client
    ensures ss[n].loop.pc.Resizing? || ss[n].loop.pc.Waiting? || ss[n].loop.pc.Closed?
    ensures ss[n].loop.pc.Waiting? ==> ss[n].client.frames == ss[i].client.frames + 1
    decreases n
  {
    if i + 1 < n {
      ResizeSendsOne(ss, acts, i, n - 1);
    }
  }

  /** A change that the client's rows and size do not show, such as a cursor move, is recorded but sends no
      frame; any other change, a resize among them, sends exactly one frame by the end of the tick, whatever
      output and resizes come during it. */
  lemma DiffSendsOnlyVisibleChanges(ss: seq<Sys>, acts: seq<Action>, i: nat, n: nat)
    requires IsRun(ss, acts) && i < n < |ss| && acts[i] == DoDiff
    requires ss[n].loop.pc.Waiting? && forall k :: i < k < n ==> !ss[k].loop.pc.Waiting?
    ensures ss[n].client.frames == ss[i].client.frames + if Shows(ss[i].client, ss[i].mirror.screen) then 0 else 1
    ensures Shows(ss[i].client, ss[i].mirror.screen) ==> n == i + 1 && ss[n].client == ss[i].client
  {
    hide Apply, Enabled;
    RunKeepsInv(ss, acts, i);
    assert Enabled(ss[i], acts[i]) && ss[i + 1] == Apply(ss[i], acts[i]);
    DiffStep(ss[i]);
    if ss[i + 1].loop.pc.Resizing? {
      ResizeSendsOne(ss, acts, i + 1, n);
    }
  }

  lemma {:induction false} NoDirtyLines(rows: seq<string>, n: nat)
    requires n <= |rows|
    ensures DirtyLines(rows, rows, false, n) == []
  {
    if n > 0 {
      NoDirtyLines(rows, n - 1);
    }
  }

  // ---------------------------------------------------------------------------
  // Resizes and output over runs

  predicate Changes(s: Sys, a: Action) {
    match a
    case DoOutput(_) => true
    case DoResize(cols, rows, _) => s.mirror.cols != cols || s.mirror.rows != rows
    case _ => false
  }

  /** How many of the first `n` steps change the mirror. */
  function Changing(ss: seq<Sys>, acts: seq<Action>, n: nat): nat
    requires n <= |acts| <= |ss|
  {
    if n == 0 then 0 else Changing(ss, acts, n - 1) + if Changes(ss[n - 1], acts[n - 1]) then 1 else 0
  }

  lemma MirrorStep(s: Sys, a: Action)
    requires Enabled(s, a)
    ensures var m, m' := s.mirror, Apply(s, a).mirror;
            && m'.ver == m.ver + (if Changes(s, a) then 1 else 0)
            && (a.DoOutput? ==> m'.screen == a.next && m'.cols == m.cols && m'.rows == m.rows)
            && (a.DoResize? ==> m'.cols == a.cols && m'.rows == a.rows)
            && (a.DoResize? && Changes(s, a) ==> m'.screen.cols == Max(1, a.cols) && |m'.screen.rows| == Max(1, a.rows))
            && (!IsMirrorAction(a) || !Changes(s, a) ==> m' == m)
  {
    if a.DoResize? {
      ResizeApplies(s.mirror, a.cols, a.rows, a.redrawn);
    }
  }

  /** The version counts the output chunks and the resizes to another size, and nothing else. */
  lemma {:induction false} VersionCountsChanges(ss: seq<Sys>, acts: seq<Action>, n: nat)
    requires IsRun(ss, acts) && n <= |acts|
    ensures ss[n].mirror.ver == Changing(ss, acts, n)
    decreases n
  {
    hide Apply, Enabled, Changes;
    if n > 0 {
      VersionCountsChanges(ss, acts, n - 1);
      MirrorStep(ss[n - 1], acts[n - 1]);
    }
  }

  /** Steps that keep the mirror's size: all but resizes and output that leaves a screen of another size. */
  predicate KeepsSize(s: Sys, a: Action) {
    && !a.DoResize?
    && (a.DoOutput? ==> a.next.cols == s.mirror.screen.cols && |a.next.rows| == |s.mirror.screen.rows|)
  }

  lemma {:induction false} SizeStays(ss: seq<Sys>, acts: seq<Action>, i: nat, n: nat)
    requires IsRun(ss, acts) && i <= n < |ss|
    requires forall k :: i <= k < n ==> KeepsSize(ss[k], acts[k])
    ensures ss[n].mirror.screen.cols == ss[i].mirror.screen.cols && |ss[n].mirror.screen.rows| == |ss[i].mirror.screen.rows|
    ensures ss[n].mirror.cols == ss[i].mirror.cols && ss[n].mirror.rows == ss[i].mirror.rows
    decreases n
  {
    hide Apply, Enabled;
    if i < n {
      SizeStays(ss, acts, i, n - 1);
      MirrorStep(ss[n - 1], acts[n - 1]);
    }
  }

  /** A resize to another size reaches the client: after it, with output that keeps the size, and one tick in
      which the mirror does not change, the client shows that many columns and rows, at least one of each. */
  lemma ResizeReachesClient(ss: seq<Sys>, acts: seq<Action>, i: nat, j: nat, n: nat)
    requires IsRun(ss, acts) && i < j < n < |ss|
    requires acts[i].DoResize? && (acts[i].cols != ss[i].mirror.cols || acts[i].rows != ss[i].mirror.rows)
    requires forall k :: i < k < n ==> KeepsSize(ss[k], acts[k])
    requires acts[j] == DoPoll && ss[n].loop.pc.Waiting? && forall k :: j <= k < n ==> !IsMirrorAction(acts[k])
    ensures ss[n].client.cols == Max(1, acts[i].cols) && |ss[n].client.rows| == Max(1, acts[i].rows)
  {
    hide Apply, Enabled;
    MirrorStep(ss[i], acts[i]);
    SizeStays(ss, acts, i + 1, n);
    QuietTickResyncs(ss, acts, j, n);
  }

  /** Output reaches the client: after a quiet tick it shows the rows that the last chunk left, if no other
      chunk and no resize to another size came since. */
  lemma OutputReachesClient(ss: seq<Sys>, acts: seq<Action>, i: nat, j: nat, n: nat)
    requires IsRun(ss, acts) && i < j < n < |ss| && acts[i].DoOutput?
    requires forall k :: i < k < n ==> !Changes(ss[k], acts[k])
    requires acts[j] == DoPoll && ss[n].loop.pc.Waiting? && forall k :: j <= k < n ==> !IsMirrorAction(acts[k])
    ensures ss[n].client.cols == acts[i].next.cols && ss[n].client.rows == acts[i].next.rows
  {
    hide Apply, Enabled;
    MirrorStep(ss[i], acts[i]);
    MirrorStays(ss, acts, i + 1, n);
    QuietTickResyncs(ss, acts, j, n);
  }

  lemma {:induction false} MirrorStays(ss: seq<Sys>, acts: seq<Action>, i: nat, n: nat)
    requires IsRun(ss, acts) && i <= n < |ss|
    requires forall k :: i <= k < n ==> !Changes(ss[k], acts[k])
    ensures ss[n].mirror == ss[i].mirror
    decreases n
  {
    hide Apply, Enabled, Changes;
    if i < n {
      MirrorStays(ss, acts, i, n - 1);
      MirrorStep(ss[n - 1], acts[n - 1]);
    }
  }

  // ---------------------------------------------------------------------------
  // What a frame carries

  /** A frame carries its screen's size and cursor, and a line for each row that the client does not already
      hold, or for each row if it is a full one, from the top down and no other. */
  lemma {:induction false} LinesAreDirtyRows(rows: seq<string>, held: seq<string>, full: bool, n: nat)
    requires n <= |rows|
    ensures var ls := DirtyLines(rows, held, full, n);
            && (forall i: int, text: string :: Line(i, text) in ls <==>
                  0 <= i < n && text == rows[i] && (full || i >= |held| || held[i] != rows[i]))
            && (forall k, l :: 0 <= k < l < |ls| ==> ls[k].row < ls[l].row)
            && (forall k :: 0 <= k < |ls| ==> ls[k].row < n)
  {
    if n > 0 {
      LinesAreDirtyRows(rows, held, full, n - 1);
      assert forall i: int, text: string :: Line(i, text) == Line(n - 1, rows[n - 1]) <==> i == n - 1 && text == rows[n - 1];
    }
  }

  lemma FrameCarries(s: Screen, version: nat, held: seq<string>, full: bool)
    ensures var f := FrameOf(s, version, held, full);
            && f.version == version && f.cols == s.cols && f.rows == |s.rows| && f.full == full && f.cursor == s.cursor
            && (forall i: int, text: string :: Line(i, text) in f.lines <==>
                  0 <= i < |s.rows| && text == s.rows[i] && (full || i >= |held| || held[i] != s.rows[i]))
            && (forall k, l :: 0 <= k < l < |f.lines| ==> f.lines[k].row < f.lines[l].row)
  {
    LinesAreDirtyRows(s.rows, held, full, |s.rows|);
  }
}

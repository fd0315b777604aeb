/** The screen mirror of a session and its version counter (internal/session/session.go, agent.go).
    What the emulator draws is not modelled: any output may leave any screen behind. */
module ScreenMirror {
  import opened Common

  datatype Cursor = Cursor(row: nat, col: nat, visible: bool)

  datatype Screen = Screen(cols: nat, rows: seq<string>, cursor: Cursor)

  // cols and rows are the size last applied, which is not the grid's size before the first resize.
  datatype MirrorState = MirrorState(screen: Screen, ver: nat, cols: int, rows: int)

  datatype MirrorError = MirrorDisabled

  /** One output chunk went through the emulator, which now shows `next`. */
  function Fed(m: MirrorState, next: Screen): MirrorState {
    m.(screen := next, ver := m.ver + 1)
  }

  /** The emulator clamps a size to one cell and keeps its grid when the size is the one it has. */
  function Resized(s: Screen, cols: int, rows: int, redrawn: Screen): Screen {
    if Max(1, cols) == s.cols && Max(1, rows) == |s.rows| then s else redrawn
  }

  function Synced(m: MirrorState, cols: int, rows: int, redrawn: Screen): MirrorState {
    if m.cols == cols && m.rows == rows then m
    else MirrorState(Resized(m.screen, cols, rows, redrawn), m.ver + 1, cols, rows)
  }

  /** A chunk of output leaves the screen it drew and one more version; the applied size stays. */
  lemma FeedDraws(m: MirrorState, next: Screen)
    ensures var m' := Fed(m, next);
            m'.screen == next && m'.ver == m.ver + 1 && m'.cols == m.cols && m'.rows == m.rows
  {
  }

  /** A resize always leaves its size applied. It makes one more version if and only if the size is not the
      applied one, and the screen then has that many columns and rows, but at least one of each. */
  lemma ResizeApplies(m: MirrorState, cols: int, rows: int, redrawn: Screen)
    requires redrawn.cols == Max(1, cols) && |redrawn.rows| == Max(1, rows)
    ensures var m' := Synced(m, cols, rows, redrawn);
            && m'.cols == cols && m'.rows == rows
            && m'.ver == m.ver + (if m.cols != cols || m.rows != rows then 1 else 0)
            && (m.cols != cols || m.rows != rows ==>
                  m'.screen.cols == Max(1, cols) && |m'.screen.rows| == Max(1, rows)
                  && (m'.screen == redrawn || m'.screen == m.screen))
            && (m.cols == cols && m.rows == rows ==> m' == m)
  {
  }

  class Mirror {
    const enabled: bool
    var screen: Screen
    var mirrorVer: nat
    var mirrorCols: int
    var mirrorRows: int

    ghost function View(): MirrorState
      reads this
    {
      MirrorState(screen, mirrorVer, mirrorCols, mirrorRows)
    }

    constructor (enabled: bool, first: Screen)
      ensures View() == MirrorState(first, 0, 0, 0) && this.enabled == enabled
    {
      this.enabled, screen, mirrorVer, mirrorCols, mirrorRows := enabled, first, 0, 0, 0;
    }

    method Feed(next: Screen)
      modifies this
      ensures View() == if enabled then Fed(old(View()), next) else old(View())
    {
      if enabled {
        screen := next;
        mirrorVer := mirrorVer + 1;
      }
    }

    method SyncMirrorSize(cols: int, rows: int, redrawn: Screen)
      modifies this
      ensures View() == if enabled then Synced(old(View()), cols, rows, redrawn) else old(View())
    {
      if enabled && (mirrorCols != cols || mirrorRows != rows) {
        if !(Max(1, cols) == screen.cols && Max(1, rows) == |screen.rows|) {
          screen := redrawn;
        }
        mirrorCols, mirrorRows := cols, rows;
        mirrorVer := mirrorVer + 1;
      }
    }

    method MirrorVersion() returns (v: nat)
      ensures v == View().ver
    {
      v := mirrorVer;
    }

    method ScreenWithVersion() returns (r: Result<(Screen, nat), MirrorError>)
      ensures r == if enabled then Ok((View().screen, View().ver)) else Err(MirrorDisabled)
    {
      if !enabled {
        return Err(MirrorDisabled);
      }
      r := Ok((screen, mirrorVer));
    }
  }
}

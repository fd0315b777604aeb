/** The byte scanner that runs beside the emulator (internal/capture/emulator.go, gfxScanner). */
module GfxScanner {
  import opened Common

  const GFX_BUF_LIMIT := 16 * 1024 * 1024
  const REP_MAX := 4096

  datatype Node = Ground | Esc | Csi | Utf8 | Collect(kind: Kind) | CollectEnd(kind: Kind)

  // The three kinds of strings collected for the graphics extractor.
  datatype Kind = Osc | Dcs | Apc

  datatype Event = NoEvent | RuneDone | Payload(kind: Kind, bytes: seq<byte>) | CsiReplaced

  /** utf8 holds the bytes of the character being framed, rune the last complete one. */
  datatype Scanner = Scanner(
    node: Node, buf: seq<byte>, full: bool,
    priv: bool, paramStr: seq<byte>, csiLen: nat,
    utf8: seq<byte>, need: nat, rune: seq<byte>,
    insertMode: bool, lastRune: seq<byte>, replacement: seq<byte>)

  const INITIAL := Scanner(Ground, [], false, false, [], 0, [], 0, [], false, [], [])

  // ---------------------------------------------------------------------------
  // CSI parameters

  predicate IsParamDigit(b: byte) {
    0x30 <= b <= 0x39
  }

  predicate IsSeparator(b: byte) {
    b == 0x3b || b == 0x3a
  }

  function DecimalValue(s: seq<byte>): nat
    requires forall i :: 0 <= i < |s| ==> IsParamDigit(s[i])
  {
    if s == [] then 0
    else assert IsParamDigit(s[|s| - 1]); 10 * DecimalValue(s[..|s| - 1]) + (s[|s| - 1] as int - 0x30)
  }

  /** The value of one parameter: 0 when it is empty or does not fit an int. */
  function ParamValue(seg: seq<byte>): nat {
    if forall i :: 0 <= i < |seg| ==> IsParamDigit(seg[i]) then
      var v := DecimalValue(seg);
      if v <= MAX_INT then v else 0
    else 0
  }

  /** The parameters completed by the separators of `b`, and the text after the last of them. */
  function SplitParams(b: seq<byte>): (seq<nat>, seq<byte>) {
    if b == [] then ([], [])
    else
      var (done, open) := SplitParams(b[..|b| - 1]);
      var last := b[|b| - 1];
      if IsSeparator(last) then (done + [ParamValue(open)], []) else (done, open + [last])
  }

  /** The parameters of a CSI: the text between separators, one value each. */
  function Params(b: seq<byte>): (ps: seq<nat>)
    ensures |ps| >= 1
  {
    var (done, open) := SplitParams(b);
    done + [ParamValue(open)]
  }

  method ParseParams(b: seq<byte>) returns (params: seq<nat>)
    ensures params == Params(b)
  {
    params := [];
    var start := 0;
    for i := 0 to |b|
      invariant 0 <= start <= i
      invariant SplitParams(b[..i]) == (params, b[start..i])
    {
      assert b[..i + 1][..i] == b[..i];
      assert b[start..i + 1] == b[start..i] + [b[i]];
      if IsSeparator(b[i]) {
        params := params + [ParamValue(b[start..i])];
        start := i + 1;
        assert b[start..i + 1] == [];
      }
    }
    assert b[..|b|] == b;
    params := params + [ParamValue(b[start..])];
  }

  // ---------------------------------------------------------------------------
  // One byte

  function Repeat(s: seq<byte>, n: nat): seq<byte> {
    if n == 0 then [] else Repeat(s, n - 1) + s
  }

  /** How often CSI b repeats: its first parameter, at least once and at most REP_MAX times. */
  function RepeatCount(params: seq<nat>): (n: nat)
    requires |params| >= 1
    ensures 1 <= n <= REP_MAX
  {
    Min(REP_MAX, Max(1, params[0]))
  }

  function Need(lead: byte): nat {
    if lead <= 0xdf then 2 else if lead <= 0xef then 3 else 4
  }

  predicate IsLead(b: byte) {
    0xc2 <= b <= 0xf4
  }

  function StepGround(s: Scanner, b: byte): (Scanner, Event) {
    if b == ESC then (s.(node := Esc), NoEvent)
    else if b < 0x80 then (s.(node := Ground, rune := [b], lastRune := [b]), RuneDone)
    else if IsLead(b) then (s.(node := Utf8, utf8 := [b], need := Need(b)), NoEvent)
    else (s.(node := Ground), NoEvent)
  }

  function StepUtf8(s: Scanner, b: byte): (Scanner, Event) {
    if !IsContinuation(b) then StepGround(s.(utf8 := [], need := 0), b)
    else
      var u := s.utf8 + [b];
      if |u| == s.need
      then (s.(node := Ground, utf8 := [], need := 0, rune := u, lastRune := u), RuneDone)
      else (s.(utf8 := u), NoEvent)
  }

  function Start(s: Scanner, kind: Kind): Scanner {
    s.(node := Collect(kind), buf := [], full := false)
  }

  function StepEsc(s: Scanner, b: byte): Scanner {
    match b
    case 0x5b => s.(node := Csi, priv := false, paramStr := [], csiLen := 2)
    case 0x5d => Start(s, Osc)
    case 0x50 => Start(s, Dcs)
    case 0x5f => Start(s, Apc)
    case 0x63 => INITIAL
    case _ => s.(node := Ground)
  }

  predicate IsFinal(b: byte) {
    0x40 <= b <= 0x7e
  }

  /** Insert mode (IRM) is parameter 4 of CSI h and CSI l, when not private. */
  function InsertModeAfter(s: Scanner, b: byte): bool {
    if (b == 0x68 || b == 0x6c) && !s.priv && 4 in Params(s.paramStr) then b == 0x68 else s.insertMode
  }

  /** CSI s and CSI u, when not private, and CSI b are not forwarded as they are. */
  predicate IsRewritten(s: Scanner, b: byte) {
    ((b == 0x73 || b == 0x75) && !s.priv) || b == 0x62
  }

  /** What stands in for a rewritten CSI. CSI b before any character leaves the previous replacement. */
  function ReplacementAfter(s: Scanner, b: byte): seq<byte> {
    if !IsRewritten(s, b) then s.replacement
    else if b == 0x73 then [ESC, 0x37]
    else if b == 0x75 then [ESC, 0x38]
    else if s.lastRune != [] then Repeat(s.lastRune, RepeatCount(Params(s.paramStr)))
    else s.replacement
  }

  function StepFinal(s: Scanner, b: byte): (Scanner, Event) {
    (s.(node := Ground, insertMode := InsertModeAfter(s, b), replacement := ReplacementAfter(s, b)),
     if IsRewritten(s, b) then CsiReplaced else NoEvent)
  }

  function StepCsi(s: Scanner, b: byte): (Scanner, Event) {
    var c := s.(csiLen := s.csiLen + 1);
    if b == 0x3f then (c.(priv := true), NoEvent)
    else if IsParamDigit(b) || IsSeparator(b) then (c.(paramStr := s.paramStr + [b]), NoEvent)
    else if IsFinal(b) then StepFinal(c, b)
    else (c, NoEvent)
  }

  function Collected(s: Scanner, b: byte): Scanner {
    if s.full then s
    else if |s.buf| >= GFX_BUF_LIMIT then s.(full := true, buf := [])
    else s.(buf := s.buf + [b])
  }

  function Report(s: Scanner, kind: Kind): (Scanner, Event) {
    (s.(node := Ground, buf := [], full := false), Payload(kind, s.buf))
  }

  /** The scanner after one byte, and the event the byte completed. */
  function Step(s: Scanner, b: byte): (Scanner, Event) {
    match s.node
    case Ground => StepGround(s, b)
    case Utf8 => StepUtf8(s, b)
    case Esc => (StepEsc(s, b), NoEvent)
    case Csi => StepCsi(s, b)
    case Collect(kind) =>
      if kind.Osc? && b == BEL then Report(s, kind)
      else if b == ESC then (s.(node := CollectEnd(kind)), NoEvent)
      else (Collected(s, b), NoEvent)
    case CollectEnd(kind) =>
      if b == 0x5c then Report(s, kind) else (s.(node := Collect(kind)), NoEvent)
  }

  /** Byte `b` interrupts a multi-byte character before it is complete. */
  predicate Truncates(sc: Scanner, b: byte) {
    sc.node.Utf8? && !IsContinuation(b)
  }

  function StepAll(s: Scanner, bs: seq<byte>): Scanner {
    if bs == [] then s else Step(StepAll(s, bs[..|bs| - 1]), bs[|bs| - 1]).0
  }

  lemma {:induction false} StepAllAppend(s: Scanner, a: seq<byte>, b: seq<byte>)
    ensures StepAll(s, a + b) == StepAll(StepAll(s, a), b)
    decreases |b|
  {
    if b == [] {
      assert a + b == a;
    } else {
      assert (a + b)[..|a + b| - 1] == a + b[..|b| - 1];
      StepAllAppend(s, a, b[..|b| - 1]);
    }
  }

  /** What every reachable scanner satisfies: a character being framed is a lead byte with fewer
      continuation bytes than it needs, and no payload buffer passes the limit. */
  predicate Sound(s: Scanner) {
    && |s.buf| <= GFX_BUF_LIMIT
    && (s.full ==> s.buf == [])
    && (s.node.Utf8? ==>
          && 1 <= |s.utf8| < s.need
          && IsLead(s.utf8[0]) && s.need == Need(s.utf8[0])
          && forall i :: 1 <= i < |s.utf8| ==> IsContinuation(s.utf8[i]))
    && (!s.node.Utf8? ==> s.utf8 == [])
    && (s.node.Csi? ==> s.csiLen >= 2)
  }

  lemma StepGroundKeepsSound(s: Scanner, b: byte)
    requires Sound(s.(node := Ground)) && s.utf8 == []
    ensures Sound(StepGround(s, b).0)
  {
  }

  lemma StepUtf8KeepsSound(s: Scanner, b: byte)
    requires Sound(s) && s.node.Utf8?
    ensures Sound(StepUtf8(s, b).0)
  {
    if !IsContinuation(b) {
      StepGroundKeepsSound(s.(utf8 := [], need := 0), b);
    }
  }

  lemma StepCsiKeepsSound(s: Scanner, b: byte)
    requires Sound(s) && s.node.Csi?
    ensures Sound(StepCsi(s, b).0)
    ensures StepCsi(s, b).0.utf8 == [] && !StepCsi(s, b).0.node.Utf8? && StepCsi(s, b).1 != RuneDone
  {
    hide InsertModeAfter, ReplacementAfter, IsRewritten, IsParamDigit, IsSeparator, IsFinal;
  }

  lemma StepEscKeepsSound(s: Scanner, b: byte)
    requires Sound(s) && s.node.Esc?
    ensures Sound(StepEsc(s, b)) && StepEsc(s, b).utf8 == [] && !StepEsc(s, b).node.Utf8?
  {
  }

  lemma StepStringKeepsSound(s: Scanner, b: byte)
    requires Sound(s) && (s.node.Collect? || s.node.CollectEnd?)
    ensures Sound(Step(s, b).0)
    ensures Step(s, b).0.utf8 == [] && !Step(s, b).0.node.Utf8? && Step(s, b).1 != RuneDone
  {
    hide StepGround, StepUtf8, StepCsi, StepEsc;
  }

  /** Outside of text no character is begun or completed. */
  lemma StepOutsideText(s: Scanner, b: byte)
    requires Sound(s) && !s.node.Ground? && !s.node.Utf8?
    ensures Sound(Step(s, b).0)
    ensures Step(s, b).0.utf8 == [] && !Step(s, b).0.node.Utf8? && Step(s, b).1 != RuneDone
  {
    hide Sound, StepGround, StepUtf8, StepCsi, StepEsc, Collected, Report;
    match s.node
    case Csi => StepCsiKeepsSound(s, b);
    case Esc => StepEscKeepsSound(s, b);
    case _ => StepStringKeepsSound(s, b);
  }

  lemma SoundAtGround(s: Scanner)
    requires Sound(s) && s.node.Ground?
    ensures s.utf8 == [] && s.(node := Ground) == s
  {
  }

  lemma StepKeepsSound(s: Scanner, b: byte)
    requires Sound(s)
    ensures Sound(Step(s, b).0)
  {
    hide Sound, StepGround, StepUtf8, StepCsi, StepEsc, Collected, Report;
    match s.node
    case Ground =>
      SoundAtGround(s);
      StepGroundKeepsSound(s, b);
    case Utf8 => StepUtf8KeepsSound(s, b);
    case _ => StepOutsideText(s, b);
  }

  lemma {:induction false} StepAllKeepsSound(s: Scanner, bs: seq<byte>)
    requires Sound(s)
    ensures Sound(StepAll(s, bs))
  {
    if bs != [] {
      StepAllKeepsSound(s, bs[..|bs| - 1]);
      StepKeepsSound(StepAll(s, bs[..|bs| - 1]), bs[|bs| - 1]);
    }
  }

  // ---------------------------------------------------------------------------
  // The scanner object

  class ByteScanner {
    var node: Node
    var buf: seq<byte>
    var full: bool
    var priv: bool
    var paramStr: seq<byte>
    var csiLen: nat
    var utf8: seq<byte>
    var need: nat
    var rune: seq<byte>
    var insertMode: bool
    var lastRune: seq<byte>
    var replacement: seq<byte>

    ghost function View(): Scanner
      reads this
    {
      Scanner(node, buf, full, priv, paramStr, csiLen, utf8, need, rune, insertMode, lastRune, replacement)
    }

    constructor ()
      ensures View() == INITIAL
    {
      node, buf, full := Ground, [], false;
      priv, paramStr, csiLen := false, [], 0;
      utf8, need, rune := [], 0, [];
      insertMode, lastRune, replacement := false, [], [];
    }

    method Reset()
      modifies this
      ensures View() == INITIAL
    {
      var none: seq<byte> := [];
      node, full, priv, csiLen, need, insertMode := Ground, false, false, 0, 0, false;
      buf, paramStr, utf8, rune, lastRune, replacement := none, none, none, none, none, none;
    }

    method ScanByte(b: byte) returns (ev: Event)
      requires node.Ground?
      modifies this
      ensures (View(), ev) == StepGround(old(View()), b)
    {
      ev := NoEvent;
      if b == ESC {
        node := Esc;
      } else if b < 0x80 {
        rune := [b];
        lastRune := rune;
        ev := RuneDone;
      } else if IsLead(b) {
        utf8 := [b];
        if b <= 0xdf {
          need := 2;
        } else if b <= 0xef {
          need := 3;
        } else {
          need := 4;
        }
        node := Utf8;
      }
    }

    method ContinueRune(b: byte) returns (ev: Event)
      modifies this
      ensures (View(), ev) == StepUtf8(old(View()), b)
    {
      if !IsContinuation(b) {
        utf8, need, node := [], 0, Ground;
        ev := ScanByte(b);
        return;
      }
      utf8 := utf8 + [b];
      ev := NoEvent;
      if |utf8| == need {
        rune := utf8;
        lastRune := rune;
        utf8, need, node := [], 0, Ground;
        ev := RuneDone;
      }
    }

    method StartPayload(kind: Kind)
      modifies this
      ensures View() == Start(old(View()), kind)
    {
      node, buf, full := Collect(kind), [], false;
    }

    method Dispatch(b: byte)
      modifies this
      ensures View() == StepEsc(old(View()), b)
    {
      match b
      case 0x5b => node, priv, paramStr, csiLen := Csi, false, [], 2;
      case 0x5d => StartPayload(Osc);
      case 0x50 => StartPayload(Dcs);
      case 0x5f => StartPayload(Apc);
      case 0x63 => Reset();
      case _ => node := Ground;
    }

    method SetInsertMode(params: seq<nat>, on: bool)
      modifies this`insertMode
      ensures insertMode == if 4 in params then on else old(insertMode)
    {
      for i := 0 to |params|
        invariant insertMode == if 4 in params[..i] then on else old(insertMode)
      {
        if params[i] == 4 {
          insertMode := on;
        }
        assert params[..i + 1] == params[..i] + [params[i]];
      }
      assert params[..|params|] == params;
    }

    method FinishCsi(b: byte) returns (ev: Event)
      modifies this
      ensures (View(), ev) == StepFinal(old(View()), b)
    {
      var params := ParseParams(paramStr);
      node := Ground;
      ev := NoEvent;
      if b == 0x68 || b == 0x6c {
        if !priv {
          SetInsertMode(params, b == 0x68);
        }
      } else if b == 0x73 && !priv {
        replacement := [ESC, 0x37];
        ev := CsiReplaced;
      } else if b == 0x75 && !priv {
        replacement := [ESC, 0x38];
        ev := CsiReplaced;
      } else if b == 0x62 {
        var n := 1;
        if |params| > 0 && params[0] > 0 {
          n := params[0];
        }
        if n > REP_MAX {
          n := REP_MAX;
        }
        if |lastRune| > 0 {
          replacement := Repeat(lastRune, n);
        }
        ev := CsiReplaced;
      }
    }

    method ContinueCsi(b: byte) returns (ev: Event)
      modifies this
      ensures (View(), ev) == StepCsi(old(View()), b)
    {
      csiLen := csiLen + 1;
      ev := NoEvent;
      if b == 0x3f {
        priv := true;
      } else if IsParamDigit(b) || IsSeparator(b) {
        paramStr := paramStr + [b];
      } else if IsFinal(b) {
        ev := FinishCsi(b);
      }
    }

    method AppendPayload(b: byte)
      modifies this
      ensures View() == Collected(old(View()), b)
    {
      if full {
        return;
      }
      if |buf| >= GFX_BUF_LIMIT {
        full := true;
        buf := [];
        return;
      }
      buf := buf + [b];
    }

    method FinishPayload(kind: Kind) returns (ev: Event)
      modifies this
      ensures (View(), ev) == Report(old(View()), kind)
    {
      node := Ground;
      ev := Payload(kind, buf);
      buf, full := [], false;
    }

    method Advance(b: byte) returns (ev: Event)
      modifies this
      ensures (View(), ev) == Step(old(View()), b)
    {
      ev := NoEvent;
      match node
      case Ground => ev := ScanByte(b);
      case Utf8 => ev := ContinueRune(b);
      case Esc => Dispatch(b);
      case Csi => ev := ContinueCsi(b);
      case Collect(kind) =>
        if kind.Osc? && b == BEL {
          ev := FinishPayload(kind);
        } else if b == ESC {
          node := CollectEnd(kind);
        } else {
          AppendPayload(b);
        }
      case CollectEnd(kind) =>
        if b == 0x5c {
          ev := FinishPayload(kind);
        } else {
          node := Collect(kind);
        }
    }
  }
}

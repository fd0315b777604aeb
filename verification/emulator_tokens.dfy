/** The stream Emulator.Write forwards, said in terms of the stream's grammar and of where calls begin,
    rather than of the scanner: each token is rewritten on its own. */
module EmulatorTokens {
  import opened Common
  import opened GfxScanner
  import opened EmulatorWrite
  import opened EmulatorStream
  import opened EmulatorGrammar

  // ---------------------------------------------------------------------------
  // What each token becomes

  /** The content of a string: its bytes without the ESC pairs. */
  function Content(items: seq<Item>): seq<byte> {
    if items == [] then []
    else
      var last := items[|items| - 1];
      Content(items[..|items| - 1]) + if last.Byte? then [last.b] else []
  }

  /** What is reported for a string: its content, or nothing once it is too long. */
  function Reported(items: seq<Item>): seq<byte> {
    if |Content(items)| <= GFX_BUF_LIMIT then Content(items) else []
  }

  /** The digits and separators of a CSI body, which are its parameters' text. */
  function ParamText(body: seq<byte>): seq<byte> {
    if body == [] then []
    else
      var last := body[|body| - 1];
      ParamText(body[..|body| - 1]) + if IsParamDigit(last) || IsSeparator(last) then [last] else []
  }

  /** What the rewriter remembers between tokens: insert mode, the last character, and the last
      replacement made. */
  datatype Mode = Mode(insertMode: bool, lastRune: seq<byte>, replacement: seq<byte>)

  const FRESH := Mode(false, [], [])

  /** What a CSI is replaced by: save and restore cursor get their DEC forms, and repeat is spelled out. */
  function Replacement(m: Mode, body: seq<byte>, final: byte): Option<seq<byte>> {
    if final == 0x73 && 0x3f !in body then Some([ESC, 0x37])
    else if final == 0x75 && 0x3f !in body then Some([ESC, 0x38])
    else if final == 0x62 then
      Some(if m.lastRune != [] then Repeat(m.lastRune, RepeatCount(Params(ParamText(body)))) else m.replacement)
    else None
  }

  predicate IsReplaced(k: Token) {
    k.Control? && (k.final == 0x62 || (k.final in {0x73, 0x75} && 0x3f !in k.body))
  }

  function ModeAfterControl(m: Mode, body: seq<byte>, final: byte): Mode {
    var setsInsert := final in {0x68, 0x6c} && 0x3f !in body && 4 in Params(ParamText(body));
    Mode(if setsInsert then final == 0x68 else m.insertMode, m.lastRune,
         match Replacement(m, body, final) case Some(r) => r case None => m.replacement)
  }

  function ModeAfterToken(m: Mode, k: Token): Mode {
    match k
    case Char(c) => m.(lastRune := [c])
    case Multi(bs) => m.(lastRune := bs)
    case Reset => FRESH
    case Control(body, final) => ModeAfterControl(m, body, final)
    case _ => m
  }

  function Shown(t: Terminal, m: Mode, rune: seq<byte>, out: seq<byte>): seq<byte> {
    out + Wrap(t, rune, out) + MakeRoom(t, rune, m.insertMode) + rune
  }

  /** How many bytes of the token at [at, at + n) came before the call that brought its last byte. */
  function CutIn(cuts: set<nat>, at: nat, n: nat): (k: nat)
    requires n > 0
    ensures k < n
  {
    Max(0, LastCut(cuts, at + n - 1) - at)
  }

  function OutAfterToken(t: Terminal, cuts: set<nat>, m: Mode, at: nat, out: seq<byte>, k: Token): seq<byte> {
    match k
    case Char(c) => Shown(t, m, [c], out)
    case Multi(bs) => Shown(t, m, bs, out)
    case Broken(_) => out
    case Control(body, final) =>
      (match Replacement(m, body, final)
       case Some(x) => out + Render(k)[..CutIn(cuts, at, |Render(k)|)] + x
       case None => out + Render(k))
    case String(kind, items, _) =>
      var whole := out + Render(k);
      whole + t.react(kind, Reported(items), whole)
    case _ => out + Render(k)
  }

  function ModeAfter(m: Mode, ks: seq<Token>): Mode {
    if ks == [] then m else ModeAfterToken(ModeAfter(m, ks[..|ks| - 1]), ks[|ks| - 1])
  }

  function OutAfter(t: Terminal, cuts: set<nat>, m: Mode, out: seq<byte>, ks: seq<Token>): seq<byte> {
    if ks == [] then out
    else
      var before := ks[..|ks| - 1];
      OutAfterToken(t, cuts, ModeAfter(m, before), |RenderAll(before)|, OutAfter(t, cuts, m, out, before), ks[|ks| - 1])
  }

  /** The bytes of a character that is not complete. */
  function Pending(rest: Rest): seq<byte> {
    if rest.PartialChar? then rest.bytes else []
  }

  /** An unfinished character is held back; any other unfinished token is forwarded as it comes. */
  function OutAfterStream(t: Terminal, cuts: set<nat>, m: Mode, out: seq<byte>, st: Stream): seq<byte> {
    OutAfter(t, cuts, m, out, st.tokens) + if st.rest.PartialChar? then [] else RenderRest(st.rest)
  }

  function ReportsOf(k: Token): seq<(Kind, seq<byte>)> {
    if k.String? then [(k.kind, Reported(k.items))] else []
  }

  /** The payloads reported for a list of tokens: one for each string, in order. */
  function ReportsAfter(ks: seq<Token>): seq<(Kind, seq<byte>)> {
    if ks == [] then [] else ReportsAfter(ks[..|ks| - 1]) + ReportsOf(ks[|ks| - 1])
  }

  // ---------------------------------------------------------------------------
  // The machine, byte by byte

  /** The scanner, the rewritten output, the payloads reported so far, whether any character was
      truncated, and the number of bytes seen. */
  datatype Run = Run(sc: Scanner, out: seq<byte>, reports: seq<(Kind, seq<byte>)>, truncated: bool, pos: nat)

  function ReportOf(ev: Event): seq<(Kind, seq<byte>)> {
    if ev.Payload? then [(ev.kind, ev.bytes)] else []
  }

  function Next(t: Terminal, cuts: set<nat>, r: Run, b: byte): Run {
    var (s, ev) := Step(r.sc, b);
    Run(s, RewriteEvent(t, s, r.out, b, ev, r.pos - LastCut(cuts, r.pos)), r.reports + ReportOf(ev),
        r.truncated || Truncates(r.sc, b), r.pos + 1)
  }

  function NextAll(t: Terminal, cuts: set<nat>, r: Run, bs: seq<byte>): Run {
    if bs == [] then r else Next(t, cuts, NextAll(t, cuts, r, bs[..|bs| - 1]), bs[|bs| - 1])
  }

  lemma {:induction false} NextAllAppend(t: Terminal, cuts: set<nat>, r: Run, a: seq<byte>, b: seq<byte>)
    ensures NextAll(t, cuts, r, a + b) == NextAll(t, cuts, NextAll(t, cuts, r, a), b)
    decreases |b|
  {
    hide Next;
    if b == [] {
      assert a + b == a;
    } else {
      assert (a + b)[..|a + b| - 1] == a + b[..|b| - 1];
      NextAllAppend(t, cuts, r, a, b[..|b| - 1]);
    }
  }

  lemma NextAllTwo(t: Terminal, cuts: set<nat>, r: Run, a: byte, b: byte)
    ensures NextAll(t, cuts, r, [a]) == Next(t, cuts, r, a)
    ensures NextAll(t, cuts, r, [a, b]) == Next(t, cuts, Next(t, cuts, r, a), b)
  {
    hide Next;
    assert [a][..0] == [] && [a, b][..1] == [a];
  }

  /** `r` after `n` more bytes that were forwarded as they came. */
  predicate Forwarded(r: Run, r': Run, bs: seq<byte>) {
    r' == Run(r'.sc, r.out + bs, r.reports, r.truncated, r.pos + |bs|)
  }

  predicate HasMode(s: Scanner, m: Mode) {
    m == Mode(s.insertMode, s.lastRune, s.replacement)
  }

  predicate AtGround(r: Run, m: Mode) {
    r.sc.node.Ground? && HasMode(r.sc, m)
  }

  /** The bytes of a character have come, and the next one will show whether it is broken. */
  predicate InChar(r: Run, m: Mode, bs: seq<byte>) {
    r.sc.node.Utf8? && HasMode(r.sc, m) && r.sc.utf8 == bs && |bs| > 0 && r.sc.need == Need(bs[0])
  }

  /** What running a token from ground state must come to. */
  predicate Does(t: Terminal, cuts: set<nat>, r: Run, m: Mode, k: Token) {
    var r', m' := NextAll(t, cuts, r, Render(k)), ModeAfterToken(m, k);
    && (if k.Broken? then InChar(r', m', k.bytes) else AtGround(r', m'))
    && r'.out == OutAfterToken(t, cuts, m, r.pos, r.out, k)
    && r'.reports == r.reports + ReportsOf(k) && r'.truncated == r.truncated
    && r'.pos == r.pos + |Render(k)|
  }

  lemma ShownIs(t: Terminal, m: Mode, rune: seq<byte>, out: seq<byte>)
    ensures Shown(t, m, rune, out) == out + (Wrap(t, rune, out) + MakeRoom(t, rune, m.insertMode)) + rune
  {
  }

  lemma SimpleTokenDoes(t: Terminal, cuts: set<nat>, r: Run, m: Mode, k: Token)
    requires AtGround(r, m) && Valid(k) && (k.Char? || k.Stray?)
    ensures Does(t, cuts, r, m, k)
  {
    hide Shown;
    NextAllTwo(t, cuts, r, k.c, k.c);
    ShownIs(t, m, [k.c], r.out);
  }

  /** A byte that completes nothing and begins no character is forwarded. */
  lemma NextForwards(t: Terminal, cuts: set<nat>, r: Run, b: byte)
    requires Step(r.sc, b).1 == NoEvent && !Step(r.sc, b).0.node.Utf8? && !r.sc.node.Utf8?
    ensures Next(t, cuts, r, b) == Run(Step(r.sc, b).0, r.out + [b], r.reports, r.truncated, r.pos + 1)
  {
    hide Step, LastCut;
    assert r.reports + [] == r.reports;
  }

  lemma EscForwarded(t: Terminal, cuts: set<nat>, r: Run, node: Node)
    requires (r.sc.node.Ground? && node == Esc) || (r.sc.node.Collect? && node == CollectEnd(r.sc.node.kind))
    ensures Next(t, cuts, r, ESC) == Run(r.sc.(node := node), r.out + [ESC], r.reports, r.truncated, r.pos + 1)
  {
  }

  lemma EscapeTokenDoes(t: Terminal, cuts: set<nat>, r: Run, m: Mode, k: Token)
    requires AtGround(r, m) && Valid(k) && (k.Escape? || k.Reset?)
    ensures Does(t, cuts, r, m, k)
  {
    var c := if k.Escape? then k.c else 0x63;
    NextAllTwo(t, cuts, r, ESC, c);
    EscForwarded(t, cuts, r, Esc);
    hide Next, StepGround, StepUtf8, StepCsi, Collected, Report, LastCut;
    NextForwards(t, cuts, Next(t, cuts, r, ESC), c);
    assert r.out + [ESC] + [c] == r.out + [ESC, c];
    assert r.reports + [] == r.reports;
  }

  // A character of several bytes

  lemma CharFirst(t: Terminal, cuts: set<nat>, r: Run, m: Mode, b: byte)
    requires AtGround(r, m) && IsLead(b)
    ensures var r' := Next(t, cuts, r, b);
            InChar(r', m, [b]) && r' == Run(r'.sc, r.out, r.reports, r.truncated, r.pos + 1)
  {
  }

  lemma {:induction false} CharRun(t: Terminal, cuts: set<nat>, r: Run, m: Mode, bs: seq<byte>)
    requires AtGround(r, m) && IsPartialChar(bs)
    ensures var r' := NextAll(t, cuts, r, bs);
            InChar(r', m, bs) && r' == Run(r'.sc, r.out, r.reports, r.truncated, r.pos + |bs|)
    decreases |bs|
  {
    hide Next, InChar, AtGround;
    var n := |bs| - 1;
    if n == 0 {
      assert bs == [bs[0]];
      NextAllTwo(t, cuts, r, bs[0], bs[0]);
      CharFirst(t, cuts, r, m, bs[0]);
    } else {
      CharRun(t, cuts, r, m, bs[..n]);
      CharNext(t, cuts, NextAll(t, cuts, r, bs[..n]), m, bs, n);
    }
  }

  lemma CharNext(t: Terminal, cuts: set<nat>, r: Run, m: Mode, bs: seq<byte>, n: nat)
    requires IsPartialChar(bs) && 0 < n == |bs| - 1 && InChar(r, m, bs[..n])
    ensures var r' := Next(t, cuts, r, bs[n]);
            InChar(r', m, bs) && r' == Run(r'.sc, r.out, r.reports, r.truncated, r.pos + 1)
  {
    assert bs[..n] + [bs[n]] == bs;
  }

  lemma CharLast(t: Terminal, cuts: set<nat>, r: Run, m: Mode, bs: seq<byte>)
    requires Valid(Multi(bs)) && InChar(r, m, bs[..|bs| - 1])
    ensures var r' := Next(t, cuts, r, bs[|bs| - 1]);
            && AtGround(r', m.(lastRune := bs)) && r'.out == Shown(t, m, bs, r.out)
            && r'.reports == r.reports && r'.truncated == r.truncated && r'.pos == r.pos + 1
  {
    hide Shown, LastCut;
    var n := |bs| - 1;
    assert bs[..n] + [bs[n]] == bs;
    assert Step(r.sc, bs[n]) == (r.sc.(node := Ground, utf8 := [], need := 0, rune := bs, lastRune := bs), RuneDone);
    ShownIs(t, m, bs, r.out);
  }

  lemma CharTokenDoes(t: Terminal, cuts: set<nat>, r: Run, m: Mode, k: Token)
    requires AtGround(r, m) && Valid(k) && (k.Multi? || k.Broken?)
    ensures Does(t, cuts, r, m, k)
  {
    hide Next, InChar, AtGround, Shown;
    if k.Broken? {
      CharRun(t, cuts, r, m, k.bytes);
    } else {
      var n := |k.bytes| - 1;
      assert IsPartialChar(k.bytes[..n]);
      CharRun(t, cuts, r, m, k.bytes[..n]);
      CharLast(t, cuts, NextAll(t, cuts, r, k.bytes[..n]), m, k.bytes);
    }
  }

  // A CSI

  /** The scanner after a CSI's introducer and `body`. */
  predicate InControl(s: Scanner, m: Mode, body: seq<byte>) {
    && s.node.Csi? && s.csiLen == 2 + |body|
    && (s.priv <==> 0x3f in body) && s.paramStr == ParamText(body)
    && HasMode(s, m)
  }

  lemma ControlStep(s: Scanner, b: byte)
    requires s.node.Csi? && !IsFinal(b)
    ensures Step(s, b) == (s.(csiLen := s.csiLen + 1, priv := s.priv || b == 0x3f,
                              paramStr := s.paramStr + if IsParamDigit(b) || IsSeparator(b) then [b] else []), NoEvent)
  {
    hide StepFinal, StepGround, StepUtf8, StepEsc, Collected, Report;
    assert s.paramStr + [] == s.paramStr;
  }

  lemma ControlKeeps(s: Scanner, m: Mode, body: seq<byte>, b: byte)
    requires InControl(s, m, body)
    ensures InControl(s.(csiLen := s.csiLen + 1, priv := s.priv || b == 0x3f,
                         paramStr := s.paramStr + if IsParamDigit(b) || IsSeparator(b) then [b] else []),
                      m, body + [b])
  {
    hide IsParamDigit, IsSeparator;
    assert (body + [b])[..|body|] == body;
  }

  lemma ControlNext(t: Terminal, cuts: set<nat>, r: Run, m: Mode, body: seq<byte>, b: byte)
    requires InControl(r.sc, m, body) && !IsFinal(b)
    ensures var r' := Next(t, cuts, r, b);
            InControl(r'.sc, m, body + [b]) && r' == Run(r'.sc, r.out + [b], r.reports, r.truncated, r.pos + 1)
  {
    hide Step, Next, IsParamDigit, IsSeparator, IsFinal, ParamText, HasMode;
    ControlStep(r.sc, b);
    NextForwards(t, cuts, r, b);
    hide InControl;
    ControlKeeps(r.sc, m, body, b);
  }

  lemma ControlStart(t: Terminal, cuts: set<nat>, r: Run, m: Mode)
    requires AtGround(r, m)
    ensures var r' := NextAll(t, cuts, r, ControlHead([]));
            InControl(r'.sc, m, []) && Forwarded(r, r', ControlHead([]))
  {
    hide LastCut;
    NextAllTwo(t, cuts, r, ESC, 0x5b);
    EscForwarded(t, cuts, r, Esc);
    assert ControlHead([]) == [ESC, 0x5b];
    assert r.out + [ESC] + [0x5b as byte] == r.out + ControlHead([]);
  }

  lemma {:induction false} ControlRun(t: Terminal, cuts: set<nat>, r: Run, m: Mode, body: seq<byte>)
    requires AtGround(r, m) && IsBody(body)
    ensures var r' := NextAll(t, cuts, r, ControlHead(body));
            InControl(r'.sc, m, body) && Forwarded(r, r', ControlHead(body))
    decreases |body|
  {
    hide Next, InControl, AtGround;
    if body == [] {
      ControlStart(t, cuts, r, m);
    } else {
      var n := |body| - 1;
      ControlRun(t, cuts, r, m, body[..n]);
      var head := ControlHead(body[..n]);
      assert ControlHead(body)[..|ControlHead(body)| - 1] == head && body[..n] + [body[n]] == body;
      ControlNext(t, cuts, NextAll(t, cuts, r, head), m, body[..n], body[n]);
      assert r.out + head + [body[n]] == r.out + ControlHead(body);
    }
  }

  lemma ControlFinalStep(s: Scanner, m: Mode, body: seq<byte>, final: byte)
    requires InControl(s, m, body) && IsFinal(final)
    ensures var (s', ev) := Step(s, final);
            && s'.node.Ground? && s'.csiLen == |body| + 3
            && HasMode(s', ModeAfterControl(m, body, final))
            && ev == (if Replacement(m, body, final).Some? then CsiReplaced else NoEvent)
            && (Replacement(m, body, final).Some? ==> s'.replacement == Replacement(m, body, final).value)
  {
    hide StepGround, StepUtf8, StepEsc, Collected, Report, Params;
    var s1 := s.(csiLen := |body| + 3);
    assert Step(s, final) == StepFinal(s1, final);
    assert ReplacementAfter(s1, final)
        == (match Replacement(m, body, final) case Some(x) => x case None => m.replacement);
    assert InsertModeAfter(s1, final) == ModeAfterControl(m, body, final).insertMode;
  }

  lemma ControlLast(t: Terminal, cuts: set<nat>, r: Run, m: Mode, body: seq<byte>, final: byte, out: seq<byte>, at: nat)
    requires IsFinal(final) && InControl(r.sc, m, body)
    requires r.out == out + ControlHead(body) && r.pos == at + |ControlHead(body)|
    ensures var r' := Next(t, cuts, r, final);
            && AtGround(r', ModeAfterControl(m, body, final))
            && r'.out == OutAfterToken(t, cuts, m, at, out, Control(body, final))
            && r'.reports == r.reports && r'.truncated == r.truncated && r'.pos == r.pos + 1
  {
    hide Step, ModeAfterControl, Replacement, LastCut, ControlHead;
    var head := ControlHead(body);
    ControlFinalStep(r.sc, m, body, final);
    HeadLength(body);
    var k := CutIn(cuts, at, |head| + 1);
    HeadKept(out, head, final, k);
    assert |r.out| - Min(r.pos - LastCut(cuts, r.pos), |head|) == |out| + k;
  }

  lemma HeadLength(body: seq<byte>)
    ensures |ControlHead(body)| == |body| + 2
  {
  }

  lemma HeadKept(out: seq<byte>, head: seq<byte>, final: byte, k: nat)
    requires k <= |head|
    ensures out + head + [final] == out + (head + [final])
    ensures (out + head)[..|out| + k] == out + (head + [final])[..k]
  {
  }

  lemma ControlTokenDoes(t: Terminal, cuts: set<nat>, r: Run, m: Mode, k: Token)
    requires AtGround(r, m) && Valid(k) && k.Control?
    ensures Does(t, cuts, r, m, k)
  {
    hide Next, ModeAfterControl, OutAfterToken, AtGround, InControl;
    var head := ControlHead(k.body);
    ControlRun(t, cuts, r, m, k.body);
    ControlLast(t, cuts, NextAll(t, cuts, r, head), m, k.body, k.final, r.out, r.pos);
    assert Render(k)[..|head|] == head;
  }

  // A string

  /** The collecting scanner after the first items of a string. */
  predicate InString(s: Scanner, m: Mode, kind: Kind, items: seq<Item>) {
    && s.node == Collect(kind) && HasMode(s, m)
    && (s.full <==> |Content(items)| > GFX_BUF_LIMIT)
    && s.buf == Reported(items)
  }

  lemma CollectedStep(s: Scanner, kind: Kind, b: byte)
    requires s.node == Collect(kind) && b != ESC && !(kind.Osc? && b == BEL)
    ensures Step(s, b) == (Collected(s, b), NoEvent)
  {
  }

  lemma CollectedContent(s: Scanner, m: Mode, kind: Kind, items: seq<Item>, b: byte)
    requires InString(s, m, kind, items)
    ensures InString(Collected(s, b), m, kind, items + [Byte(b)])
  {
    assert (items + [Byte(b)])[..|items|] == items;
  }

  lemma StringByteRun(t: Terminal, cuts: set<nat>, r: Run, m: Mode, kind: Kind, items: seq<Item>, b: byte)
    requires InString(r.sc, m, kind, items) && ValidItem(kind, Byte(b))
    ensures var r' := NextAll(t, cuts, r, [b]);
            InString(r'.sc, m, kind, items + [Byte(b)]) && Forwarded(r, r', [b])
  {
    hide LastCut, Step;
    NextAllTwo(t, cuts, r, b, b);
    CollectedStep(r.sc, kind, b);
    CollectedContent(r.sc, m, kind, items, b);
    assert Collected(r.sc, b).node == Collect(kind);
  }

  lemma StringPairRun(t: Terminal, cuts: set<nat>, r: Run, m: Mode, kind: Kind, items: seq<Item>, x: byte)
    requires InString(r.sc, m, kind, items) && ValidItem(kind, EscPair(x))
    ensures var r' := NextAll(t, cuts, r, [ESC, x]);
            InString(r'.sc, m, kind, items + [EscPair(x)]) && Forwarded(r, r', [ESC, x])
  {
    hide LastCut, StepGround, StepUtf8, StepEsc, StepCsi, Report, Collected;
    NextAllTwo(t, cuts, r, ESC, x);
    EscForwarded(t, cuts, r, CollectEnd(kind));
    assert r.out + [ESC] + [x] == r.out + [ESC, x];
    assert (items + [EscPair(x)])[..|items|] == items;
    assert Content(items) + [] == Content(items);
  }

  lemma ForwardedTwice(r: Run, r1: Run, r2: Run, a: seq<byte>, b: seq<byte>)
    requires Forwarded(r, r1, a) && Forwarded(r1, r2, b)
    ensures Forwarded(r, r2, a + b)
  {
    assert r.out + a + b == r.out + (a + b);
  }

  lemma {:induction false} StringRun(t: Terminal, cuts: set<nat>, r: Run, m: Mode, kind: Kind, items: seq<Item>)
    requires AtGround(r, m) && ValidItems(kind, items)
    ensures var r' := NextAll(t, cuts, r, StringHead(kind, items));
            InString(r'.sc, m, kind, items) && Forwarded(r, r', StringHead(kind, items))
    decreases |items|
  {
    if items == [] {
      StringStart(t, cuts, r, m, kind);
    } else {
      hide Next, Step, InString, AtGround, NextAll, StringHead, Forwarded;
      var before, last := items[..|items| - 1], items[|items| - 1];
      assert items == before + [last] && ValidItem(kind, last);
      var head := StringHead(kind, before);
      StringRun(t, cuts, r, m, kind, before);
      var r1 := NextAll(t, cuts, r, head);
      match last {
        case Byte(b) => StringByteRun(t, cuts, r1, m, kind, before, b);
        case EscPair(x) => StringPairRun(t, cuts, r1, m, kind, before, x);
      }
      NextAllAppend(t, cuts, r, head, ItemBytes(last));
      ForwardedTwice(r, r1, NextAll(t, cuts, r1, ItemBytes(last)), head, ItemBytes(last));
      AddItem(kind, before, last);
    }
  }

  lemma StringStart(t: Terminal, cuts: set<nat>, r: Run, m: Mode, kind: Kind)
    requires AtGround(r, m)
    ensures var r' := NextAll(t, cuts, r, StringHead(kind, []));
            InString(r'.sc, m, kind, []) && Forwarded(r, r', StringHead(kind, []))
  {
    hide LastCut;
    NextAllTwo(t, cuts, r, ESC, Introducer(kind));
    EscForwarded(t, cuts, r, Esc);
    assert StringHead(kind, []) == [ESC, Introducer(kind)];
    assert r.out + [ESC] + [Introducer(kind)] == r.out + StringHead(kind, []);
  }

  lemma StringEnd(t: Terminal, cuts: set<nat>, r: Run, m: Mode, kind: Kind, items: seq<Item>, bel: bool)
    requires InString(r.sc, m, kind, items) && (bel ==> kind.Osc?)
    ensures var r' := NextAll(t, cuts, r, Terminator(bel));
            var whole := r.out + Terminator(bel);
            && AtGround(r', m) && r'.reports == r.reports + [(kind, Reported(items))] && r'.truncated == r.truncated
            && r'.out == whole + t.react(kind, Reported(items), whole) && r'.pos == r.pos + |Terminator(bel)|
  {
    hide LastCut, StepGround, StepUtf8, StepEsc, StepCsi, Collected, Reported;
    if bel {
      NextAllTwo(t, cuts, r, BEL, BEL);
    } else {
      NextAllTwo(t, cuts, r, ESC, 0x5c);
      EscForwarded(t, cuts, r, CollectEnd(kind));
      assert r.out + [ESC] + [0x5c as byte] == r.out + Terminator(bel);
    }
  }

  lemma StringTokenDoes(t: Terminal, cuts: set<nat>, r: Run, m: Mode, k: Token)
    requires AtGround(r, m) && Valid(k) && k.String?
    ensures Does(t, cuts, r, m, k)
  {
    hide Next, Step, InString, AtGround, StringHead;
    var head := StringHead(k.kind, k.items);
    StringRun(t, cuts, r, m, k.kind, k.items);
    NextAllAppend(t, cuts, r, head, Terminator(k.bel));
    StringEnd(t, cuts, NextAll(t, cuts, r, head), m, k.kind, k.items, k.bel);
    assert r.out + head + Terminator(k.bel) == r.out + Render(k);
  }

  lemma TokenDoes(t: Terminal, cuts: set<nat>, r: Run, m: Mode, k: Token)
    requires AtGround(r, m) && Valid(k)
    ensures Does(t, cuts, r, m, k)
  {
    hide Does;
    match k
    case Char(_) => SimpleTokenDoes(t, cuts, r, m, k);
    case Stray(_) => SimpleTokenDoes(t, cuts, r, m, k);
    case Multi(_) => CharTokenDoes(t, cuts, r, m, k);
    case Broken(_) => CharTokenDoes(t, cuts, r, m, k);
    case Control(_, _) => ControlTokenDoes(t, cuts, r, m, k);
    case String(_, _, _) => StringTokenDoes(t, cuts, r, m, k);
    case _ => EscapeTokenDoes(t, cuts, r, m, k);
  }

  // ---------------------------------------------------------------------------
  // Tokens one after the other

  /** A broken character is dropped and the next byte read as from ground state. */
  function Resumed(r: Run): Run {
    r.(sc := r.sc.(node := Ground, utf8 := [], need := 0), truncated := true)
  }

  lemma {:induction false} ResumedRuns(t: Terminal, cuts: set<nat>, r: Run, bs: seq<byte>)
    requires r.sc.node.Utf8? && bs != [] && !IsContinuation(bs[0])
    ensures NextAll(t, cuts, r, bs) == NextAll(t, cuts, Resumed(r), bs)
    decreases |bs|
  {
    hide Next, Resumed, IsContinuation;
    var n := |bs| - 1;
    if n == 0 {
      assert bs == [bs[0]];
      NextAllTwo(t, cuts, r, bs[0], bs[0]);
      NextAllTwo(t, cuts, Resumed(r), bs[0], bs[0]);
      ResumedNext(t, cuts, r, bs[0]);
    } else {
      ResumedRuns(t, cuts, r, bs[..n]);
    }
  }

  lemma ResumedNext(t: Terminal, cuts: set<nat>, r: Run, b: byte)
    requires r.sc.node.Utf8? && !IsContinuation(b)
    ensures Next(t, cuts, r, b) == Next(t, cuts, Resumed(r), b)
  {
    hide Step, LastCut, RewriteEvent;
    ResumedStep(r.sc, b);
  }

  lemma ResumedStep(s: Scanner, b: byte)
    requires s.node.Utf8? && !IsContinuation(b)
    ensures Step(s, b) == Step(s.(node := Ground, utf8 := [], need := 0), b)
  {
  }

  /** The state after tokens `ks`. */
  predicate After(r: Run, m: Mode, ks: seq<Token>) {
    if EndsBroken(ks) then InChar(r, m, ks[|ks| - 1].bytes) else AtGround(r, m)
  }

  lemma NextTokenDoes(t: Terminal, cuts: set<nat>, r: Run, m: Mode, ks: seq<Token>, k: Token)
    requires After(r, m, ks) && Valid(k) && (EndsBroken(ks) ==> Interrupts(k))
    ensures Does(t, cuts, if EndsBroken(ks) then Resumed(r) else r, m, k)
    ensures NextAll(t, cuts, r, Render(k)) == NextAll(t, cuts, if EndsBroken(ks) then Resumed(r) else r, Render(k))
  {
    hide Does, NextAll, Valid, Render, Interrupts;
    if EndsBroken(ks) {
      FirstByte(k);
      ResumedRuns(t, cuts, r, Render(k));
      TokenDoes(t, cuts, Resumed(r), m, k);
    } else {
      TokenDoes(t, cuts, r, m, k);
    }
  }

  /** Some token before the last is a broken character. */
  predicate BrokenInside(ks: seq<Token>) {
    ks != [] && HasBroken(ks[..|ks| - 1])
  }

  lemma HasBrokenSnoc(ks: seq<Token>)
    ensures HasBroken(ks) <==> BrokenInside(ks) || EndsBroken(ks)
  {
    if ks != [] {
      assert ks == ks[..|ks| - 1] + [ks[|ks| - 1]];
    }
  }

  /** What the machine owes to the tokens seen, from state `r` on. */
  predicate TokensDone(t: Terminal, cuts: set<nat>, r: Run, m: Mode, ks: seq<Token>, r': Run) {
    && After(r', ModeAfter(m, ks), ks)
    && r'.out == OutAfter(t, cuts, m, r.out, ks)
    && r'.reports == r.reports + ReportsAfter(ks)
    && (r'.truncated <==> r.truncated || BrokenInside(ks))
    && r'.pos == |RenderAll(ks)|
  }

  /** The recursive descriptions, one token on. */
  lemma DescribeSnoc(t: Terminal, cuts: set<nat>, m: Mode, out: seq<byte>, ks: seq<Token>, k: Token)
    ensures ModeAfter(m, ks + [k]) == ModeAfterToken(ModeAfter(m, ks), k)
    ensures OutAfter(t, cuts, m, out, ks + [k])
            == OutAfterToken(t, cuts, ModeAfter(m, ks), |RenderAll(ks)|, OutAfter(t, cuts, m, out, ks), k)
    ensures ReportsAfter(ks + [k]) == ReportsAfter(ks) + ReportsOf(k)
    ensures RenderAll(ks + [k]) == RenderAll(ks) + Render(k)
    ensures BrokenInside(ks + [k]) <==> HasBroken(ks)
    ensures EndsBroken(ks + [k]) <==> k.Broken?
  {
    hide ModeAfterToken, OutAfterToken, ReportsOf, Render, HasBroken;
    assert (ks + [k])[..|ks|] == ks;
  }

  lemma DoneSnoc(t: Terminal, cuts: set<nat>, r: Run, m: Mode, ks: seq<Token>, k: Token, r1: Run, r2: Run)
    requires TokensDone(t, cuts, r, m, ks, r1)
    requires var g := if EndsBroken(ks) then Resumed(r1) else r1;
             Does(t, cuts, g, ModeAfter(m, ks), k) && r2 == NextAll(t, cuts, g, Render(k))
    ensures TokensDone(t, cuts, r, m, ks + [k], r2)
  {
    hide NextAll, OutAfterToken, ModeAfterToken, AtGround, InChar, HasBroken, BrokenInside, OutAfter, ModeAfter,
         ReportsAfter, ReportsOf, RenderAll, Render;
    DescribeSnoc(t, cuts, m, r.out, ks, k);
    HasBrokenSnoc(ks);
    assert (ks + [k])[|ks|] == k;
  }

  lemma TokensNext(t: Terminal, cuts: set<nat>, r: Run, m: Mode, ks: seq<Token>, k: Token)
    requires TokensDone(t, cuts, r, m, ks, NextAll(t, cuts, r, RenderAll(ks)))
    requires Valid(k) && (EndsBroken(ks) ==> Interrupts(k))
    ensures TokensDone(t, cuts, r, m, ks + [k], NextAll(t, cuts, r, RenderAll(ks + [k])))
  {
    hide NextAll, Render, RenderAll, TokensDone, Does, Valid, Interrupts, After, ModeAfter, OutAfter, Resumed, EndsBroken;
    var r1 := NextAll(t, cuts, r, RenderAll(ks));
    DoneAfter(t, cuts, r, m, ks, r1);
    NextTokenDoes(t, cuts, r1, ModeAfter(m, ks), ks, k);
    NextAllAppend(t, cuts, r, RenderAll(ks), Render(k));
    DescribeSnoc(t, cuts, m, r.out, ks, k);
    DoneSnoc(t, cuts, r, m, ks, k, r1, NextAll(t, cuts, r, RenderAll(ks + [k])));
  }

  lemma {:induction false} TokensDo(t: Terminal, cuts: set<nat>, r: Run, m: Mode, ks: seq<Token>)
    requires AtGround(r, m) && r.pos == 0 && Well(ks)
    ensures TokensDone(t, cuts, r, m, ks, NextAll(t, cuts, r, RenderAll(ks)))
    decreases |ks|
  {
    hide NextAll, RenderAll, TokensDone, Valid, Interrupts, AtGround, EndsBroken;
    if ks == [] {
      NoTokensDone(t, cuts, r, m);
    } else {
      var before, k := ks[..|ks| - 1], ks[|ks| - 1];
      TokensDo(t, cuts, r, m, before);
      TokensNext(t, cuts, r, m, before, k);
      assert before + [k] == ks;
    }
  }

  lemma NoTokensDone(t: Terminal, cuts: set<nat>, r: Run, m: Mode)
    requires AtGround(r, m) && r.pos == 0
    ensures TokensDone(t, cuts, r, m, [], NextAll(t, cuts, r, RenderAll([])))
  {
    assert r.reports + [] == r.reports;
  }

  lemma DoneAfter(t: Terminal, cuts: set<nat>, r: Run, m: Mode, ks: seq<Token>, r': Run)
    requires TokensDone(t, cuts, r, m, ks, r')
    ensures After(r', ModeAfter(m, ks), ks)
  {
  }

  // ---------------------------------------------------------------------------
  // The unfinished end

  predicate RestDone(r: Run, rest: Rest, r': Run) {
    && r'.out == r.out + (if rest.PartialChar? then [] else RenderRest(rest))
    && r'.reports == r.reports && r'.truncated == r.truncated
    && (r'.sc.node.Utf8? <==> rest.PartialChar?) && (rest.PartialChar? ==> r'.sc.utf8 == rest.bytes)
  }

  lemma RestDoes(t: Terminal, cuts: set<nat>, r: Run, m: Mode, rest: Rest)
    requires AtGround(r, m) && ValidRest(rest)
    ensures RestDone(r, rest, NextAll(t, cuts, r, RenderRest(rest)))
  {
    hide Next, StringHead, ControlHead;
    assert r.out + [] == r.out;
    match rest
    case Nothing =>
    case PartialChar(bs) => CharRun(t, cuts, r, m, bs);
    case PartialEscape =>
      NextAllTwo(t, cuts, r, ESC, ESC);
      EscForwarded(t, cuts, r, Esc);
    case PartialControl(body) => ControlRun(t, cuts, r, m, body);
    case PartialString(kind, items, esc) => StringRestDoes(t, cuts, r, m, kind, items, esc);
  }

  lemma StringRestDoes(t: Terminal, cuts: set<nat>, r: Run, m: Mode, kind: Kind, items: seq<Item>, esc: bool)
    requires AtGround(r, m) && ValidItems(kind, items)
    ensures var rest := PartialString(kind, items, esc); RestDone(r, rest, NextAll(t, cuts, r, RenderRest(rest)))
  {
    hide Next, StringHead, NextAll, AtGround;
    StringRun(t, cuts, r, m, kind, items);
    var head := StringHead(kind, items);
    if esc {
      NextAllAppend(t, cuts, r, head, [ESC]);
      var r1 := NextAll(t, cuts, r, head);
      NextAllTwo(t, cuts, r1, ESC, ESC);
      EscForwarded(t, cuts, r1, CollectEnd(kind));
      assert r.out + head + [ESC] == r.out + (head + [ESC]);
    } else {
      assert head + [] == head;
    }
  }

  lemma RestAfter(t: Terminal, cuts: set<nat>, r: Run, m: Mode, ks: seq<Token>, rest: Rest)
    requires After(r, m, ks) && ValidRest(rest) && (EndsBroken(ks) ==> rest != Nothing)
    ensures var r' := NextAll(t, cuts, r, RenderRest(rest));
            RestDone(if EndsBroken(ks) then Resumed(r) else r, rest, r')
  {
    hide NextAll, RestDone, RenderRest, ValidRest;
    if EndsBroken(ks) {
      FirstByteOfRest(rest);
      ResumedRuns(t, cuts, r, RenderRest(rest));
      RestDoes(t, cuts, Resumed(r), m, rest);
    } else {
      RestDoes(t, cuts, r, m, rest);
    }
  }

  /** From ground state, any stream does what its tokens say. */
  lemma StreamDoes(t: Terminal, cuts: set<nat>, r: Run, m: Mode, st: Stream)
    requires AtGround(r, m) && r.pos == 0 && ValidStream(st)
    ensures var r' := NextAll(t, cuts, r, RenderStream(st));
            && r'.out == OutAfterStream(t, cuts, m, r.out, st)
            && r'.reports == r.reports + ReportsAfter(st.tokens)
            && (r'.truncated <==> r.truncated || HasBroken(st.tokens))
            && (r'.sc.node.Utf8? <==> st.rest.PartialChar?)
            && (r'.sc.node.Utf8? ==> r'.sc.utf8 == Pending(st.rest))
            && (st.rest.Nothing? ==> AtGround(r', ModeAfter(m, st.tokens)))
  {
    hide NextAll, AtGround, HasBroken, AllValid, Linked, ValidRest, OutAfter, RenderAll, RenderRest;
    TokensDo(t, cuts, r, m, st.tokens);
    var r1 := NextAll(t, cuts, r, RenderAll(st.tokens));
    NextAllAppend(t, cuts, r, RenderAll(st.tokens), RenderRest(st.rest));
    RestAfter(t, cuts, r1, ModeAfter(m, st.tokens), st.tokens, st.rest);
    HasBrokenSnoc(st.tokens);
    NothingRun(t, cuts, r1);
  }

  lemma NothingRun(t: Terminal, cuts: set<nat>, r: Run)
    ensures NextAll(t, cuts, r, RenderRest(Nothing)) == r
  {
  }
}

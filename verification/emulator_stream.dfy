/** What Emulator.Write does to a stream, however the stream is cut into calls. */
module EmulatorStream {
  import opened Common
  import opened GfxScanner
  import opened EmulatorWrite

  function Total(e: Emu): seq<byte> {
    e.sink + e.run
  }

  /** The scanner sees the bytes alone: neither the sink nor the calls matter to it. */
  lemma {:induction false} FeedScans(t: Terminal, e: Emu, bs: seq<byte>)
    ensures FeedAll(t, e, bs).sc == StepAll(e.sc, bs)
  {
    if bs != [] {
      FeedScans(t, e, bs[..|bs| - 1]);
    }
  }

  // ---------------------------------------------------------------------------
  // The stream rewriter: the same machine with one unbroken output. All it knows of the calls is the set
  // of stream positions at which one begins.

  /** Where the call holding byte `pos` began. */
  function LastCut(cuts: set<nat>, pos: nat): (c: nat)
    ensures c <= pos
  {
    if pos == 0 || pos in cuts then pos else LastCut(cuts, pos - 1)
  }

  /** `since` counts the bytes of the current call before `b`. A replacement takes back the bytes of its CSI,
      but none that an earlier call forwarded. */
  function RewriteEvent(t: Terminal, sc: Scanner, out: seq<byte>, b: byte, ev: Event, since: nat): seq<byte> {
    match ev
    case RuneDone => out + Injected(t, sc, out) + sc.rune
    case CsiReplaced => out[..Max(0, |out| - Min(since, Max(0, sc.csiLen - 1)))] + sc.replacement
    case Payload(kind, bytes) => out + [b] + t.react(kind, bytes, out + [b])
    case NoEvent => if sc.node.Utf8? then out else out + [b]
  }

  function Rewrite(t: Terminal, sc: Scanner, out: seq<byte>, b: byte, since: nat): seq<byte> {
    RewriteEvent(t, Step(sc, b).0, out, b, Step(sc, b).1, since)
  }

  function RewriteAll(t: Terminal, cuts: set<nat>, sc: Scanner, out: seq<byte>, bs: seq<byte>): seq<byte> {
    if bs == [] then out
    else
      var before := bs[..|bs| - 1];
      Rewrite(t, StepAll(sc, before), RewriteAll(t, cuts, sc, out, before), bs[|bs| - 1],
              |before| - LastCut(cuts, |before|))
  }

  lemma {:induction false} SameCutsSameRewrite(t: Terminal, c1: set<nat>, c2: set<nat>, sc: Scanner, out: seq<byte>, bs: seq<byte>)
    requires forall i: nat :: i < |bs| ==> LastCut(c1, i) == LastCut(c2, i)
    ensures RewriteAll(t, c1, sc, out, bs) == RewriteAll(t, c2, sc, out, bs)
  {
    hide Rewrite;
    if bs != [] {
      SameCutsSameRewrite(t, c1, c2, sc, out, bs[..|bs| - 1]);
    }
  }

  /** How many bytes of an escape sequence in progress have come. */
  function InSequence(sc: Scanner): nat {
    if sc.node.Esc? then 1 else if sc.node.Csi? then sc.csiLen else 0
  }

  /** `n` bytes into a call, the bytes of an escape sequence in progress that came in this call are at the
      end of the run; and when they are the whole call, they are the whole run. */
  predicate Anchored(e: Emu, n: nat) {
    if n >= InSequence(e.sc) then |e.run| >= InSequence(e.sc) else |e.run| == n
  }

  lemma FeedRuneTotal(t: Terminal, e: Emu)
    ensures var f := FeedRune(t, e);
            && f.sc == e.sc && f.reported == e.reported
            && Total(f) == Total(e) + Injected(t, e.sc, Total(e)) + e.sc.rune
  {
    var rune := e.sc.rune;
    if Width(t, rune) > 1 {
      assert Flush(e).sink == Total(e);
    }
  }

  lemma FeedReplacementTotal(e: Emu)
    ensures var cut := Min(Max(0, e.sc.csiLen - 1), |e.run|);
            Total(FeedReplacement(e)) == Total(e)[..|Total(e)| - cut] + e.sc.replacement
  {
    var cut := Min(Max(0, e.sc.csiLen - 1), |e.run|);
    assert Total(e)[..|Total(e)| - cut] == e.sink + e.run[..|e.run| - cut];
  }

  lemma FeedEventIsRewrite(t: Terminal, e: Emu, b: byte, ev: Event, n: nat)
    requires ev == CsiReplaced ==> Min(Max(0, e.sc.csiLen - 1), |e.run|) == Min(Max(0, e.sc.csiLen - 1), n)
    ensures Total(FeedEvent(t, e, b, ev)) == RewriteEvent(t, e.sc, Total(e), b, ev, n)
  {
    hide FeedRune, FeedReplacement, Injected;
    match ev
    case RuneDone => FeedRuneTotal(t, e);
    case CsiReplaced => FeedReplacementTotal(e);
    case _ =>
      assert e.sink + (e.run + [b]) == Total(e) + [b];
  }

  lemma TextOutsideCsi(sc: Scanner, b: byte)
    requires sc.node.Ground? || sc.node.Utf8?
    ensures var (s, ev) := Step(sc, b);
            !s.node.Csi? && ev != CsiReplaced && (s.node.Esc? ==> ev == NoEvent)
  {
    hide StepEsc, StepCsi, Collected, Report, Need;
  }

  lemma StringOutsideCsi(sc: Scanner, b: byte)
    requires sc.node.Collect? || sc.node.CollectEnd?
    ensures var (s, ev) := Step(sc, b); !s.node.Csi? && !s.node.Esc? && ev != CsiReplaced
  {
    hide StepGround, StepUtf8, StepEsc, StepCsi;
  }

  lemma CsiCounts(sc: Scanner, b: byte)
    requires sc.node.Csi?
    ensures var (s, ev) := StepCsi(sc, b);
            !s.node.Esc? && s.csiLen == sc.csiLen + 1 && (s.node.Csi? ==> ev == NoEvent)
  {
    hide InsertModeAfter, ReplacementAfter, IsRewritten, IsParamDigit, IsSeparator, IsFinal;
  }

  lemma EscCounts(sc: Scanner, b: byte)
    ensures var s := StepEsc(sc, b); (s.node.Csi? ==> s.csiLen == 2) && !s.node.Esc?
  {
  }

  /** How a byte enters, continues and leaves an escape sequence. */
  lemma StepInCsi(sc: Scanner, b: byte)
    ensures var (s, ev) := Step(sc, b);
            && (s.node.Esc? ==> ev == NoEvent)
            && (s.node.Csi? ==> ev == NoEvent && s.csiLen == if sc.node.Csi? then sc.csiLen + 1 else 2)
            && (s.node.Csi? && !sc.node.Csi? ==> sc.node.Esc?)
            && (ev == CsiReplaced ==> sc.node.Csi? && s.csiLen == sc.csiLen + 1)
  {
    hide StepGround, StepUtf8, StepEsc, StepCsi, Collected, Report;
    match sc.node
    case Csi => CsiCounts(sc, b);
    case Esc => EscCounts(sc, b);
    case Ground => TextOutsideCsi(sc, b);
    case Utf8 => TextOutsideCsi(sc, b);
    case _ => StringOutsideCsi(sc, b);
  }

  lemma FeedIsRewrite(t: Terminal, e: Emu, b: byte, n: nat)
    requires Anchored(e, n)
    ensures Total(Feed(t, e, b)) == Rewrite(t, e.sc, Total(e), b, n)
    ensures Anchored(Feed(t, e, b), n + 1)
  {
    hide Step, FeedEvent, RewriteEvent;
    var (s, ev) := Step(e.sc, b);
    StepInCsi(e.sc, b);
    FeedEventIsRewrite(t, e.(sc := s), b, ev, n);
    assert Total(e.(sc := s)) == Total(e);
    FeedEventScanner(t, e.(sc := s), b, ev);
  }

  lemma FeedEventScanner(t: Terminal, e: Emu, b: byte, ev: Event)
    ensures FeedEvent(t, e, b, ev).sc == e.sc
    ensures ev == NoEvent && !e.sc.node.Utf8? ==> FeedEvent(t, e, b, ev).run == e.run + [b]
  {
  }

  lemma AnchoredAtStart(e: Emu)
    requires e.run == []
    ensures Anchored(e, 0)
  {
  }

  predicate InOneCall(cuts: set<nat>, at: nat, end: nat) {
    forall i: nat :: at <= i < end ==> LastCut(cuts, i) == at
  }

  /** One more byte `b` of a call that began after `seen`, when `q` of it has been fed. */
  lemma FeedNextIsRewrite(t: Terminal, cuts: set<nat>, e: Emu, sc: Scanner, out: seq<byte>, seen: seq<byte>, q: seq<byte>, b: byte)
    requires e.sc == StepAll(sc, seen + q) && Total(e) == RewriteAll(t, cuts, sc, out, seen + q)
    requires Anchored(e, |q|) && LastCut(cuts, |seen| + |q|) == |seen|
    ensures Total(Feed(t, e, b)) == RewriteAll(t, cuts, sc, out, seen + q + [b])
    ensures Anchored(Feed(t, e, b), |q| + 1)
  {
    hide Feed, Rewrite, LastCut, Anchored, StepAll, Total;
    FeedIsRewrite(t, e, b, |q|);
    var all := seen + q + [b];
    assert all[..|all| - 1] == seen + q;
  }

  /** Feeding a call that begins after `seen` bytes of the stream. */
  lemma {:induction false} FeedAllIsRewrite(t: Terminal, cuts: set<nat>, e: Emu, sc: Scanner, out: seq<byte>, seen: seq<byte>, q: seq<byte>)
    requires e.run == [] && e.sc == StepAll(sc, seen) && e.sink == RewriteAll(t, cuts, sc, out, seen)
    requires InOneCall(cuts, |seen|, |seen| + |q|)
    ensures Total(FeedAll(t, e, q)) == RewriteAll(t, cuts, sc, out, seen + q)
    ensures Anchored(FeedAll(t, e, q), |q|)
    decreases |q|
  {
    hide Feed, RewriteAll, LastCut, Anchored, StepAll;
    if q == [] {
      assert seen + q == seen && Total(e) == e.sink;
      AnchoredAtStart(e);
    } else {
      var k := |q| - 1;
      assert LastCut(cuts, |seen| + k) == |seen|;
      FeedAllIsRewrite(t, cuts, e, sc, out, seen, q[..k]);
      FeedScans(t, e, q[..k]);
      StepAllAppend(sc, seen, q[..k]);
      FeedNextIsRewrite(t, cuts, FeedAll(t, e, q[..k]), sc, out, seen, q[..k], q[k]);
      assert seen + q[..k] + [q[k]] == seen + q;
    }
  }

  // ---------------------------------------------------------------------------
  // Whole runs of calls

  function StripAll(ps: seq<seq<byte>>): seq<byte> {
    if ps == [] then [] else StripAll(ps[..|ps| - 1]) + StripPlaceholder(ps[|ps| - 1])
  }

  /** The stream positions at which the calls begin. */
  function Cuts(ps: seq<seq<byte>>): (cuts: set<nat>)
    ensures forall i :: i in cuts ==> i <= |StripAll(ps)|
  {
    if ps == [] then {} else Cuts(ps[..|ps| - 1]) + {|StripAll(ps[..|ps| - 1])|}
  }

  lemma {:induction false} LastCutFrom(cuts: set<nat>, at: nat, i: nat)
    requires at <= i && (at in cuts || at == 0) && forall j :: j in cuts ==> j <= at
    ensures LastCut(cuts, i) == at
    decreases i
  {
    if at < i {
      LastCutFrom(cuts, at, i - 1);
    }
  }

  lemma {:induction false} LaterCut(cuts: set<nat>, at: nat, i: nat)
    requires i < at
    ensures LastCut(cuts + {at}, i) == LastCut(cuts, i)
    decreases i
  {
    if i > 0 {
      LaterCut(cuts, at, i - 1);
    }
  }

  /** Any cutting of a stream into calls produces what the stream rewriter makes of the stream and the
      positions of the cuts. */
  lemma {:induction false} WritesRefineRewriter(t: Terminal, e: Emu, ps: seq<seq<byte>>)
    requires e.run == []
    ensures var w := WrittenAll(t, e, ps);
            && w.sc == StepAll(e.sc, StripAll(ps)) && w.run == []
            && w.sink == RewriteAll(t, Cuts(ps), e.sc, e.sink, StripAll(ps))
  {
    if ps != [] {
      hide RewriteAll, StepAll, FeedAll, StripPlaceholder;
      var before, p := ps[..|ps| - 1], StripPlaceholder(ps[|ps| - 1]);
      var seen := StripAll(before);
      WritesRefineRewriter(t, e, before);
      forall i: nat | i < |seen|
        ensures LastCut(Cuts(ps), i) == LastCut(Cuts(before), i)
      {
        LaterCut(Cuts(before), |seen|, i);
      }
      SameCutsSameRewrite(t, Cuts(before), Cuts(ps), e.sc, e.sink, seen);
      forall i: nat | |seen| <= i
        ensures LastCut(Cuts(ps), i) == |seen|
      {
        LastCutFrom(Cuts(ps), |seen|, i);
      }
      var w := WrittenAll(t, e, before);
      FeedAllIsRewrite(t, Cuts(ps), w, e.sc, e.sink, seen, p);
      FeedScans(t, w, p);
      StepAllAppend(e.sc, seen, p);
    } else {
      assert StripAll(ps) == [];
    }
  }
}

/** Emulator.Write on every stream of bytes, from ground state and however it is cut into calls. */
module EmulatorLaws {
  import opened Common
  import opened GfxScanner
  import opened EmulatorWrite
  import opened EmulatorStream
  import opened EmulatorPassthrough
  import opened EmulatorGrammar
  import opened EmulatorTokens

  predicate Grounded(e: Emu, m: Mode) {
    e.run == [] && e.sc.node.Ground? && HasMode(e.sc, m)
  }

  function RunFrom(e: Emu): Run {
    Run(e.sc, e.sink, e.reported, false, 0)
  }

  /** The rewriter is one part of a run, and the truncations another. */
  lemma {:induction false} RunIsRewrite(t: Terminal, cuts: set<nat>, r: Run, bs: seq<byte>)
    requires r.pos == 0
    ensures var r' := NextAll(t, cuts, r, bs);
            && r'.sc == StepAll(r.sc, bs) && r'.out == RewriteAll(t, cuts, r.sc, r.out, bs) && r'.pos == |bs|
            && (r'.truncated <==> r.truncated || !NoTruncation(r.sc, bs))
  {
    hide Step, RewriteEvent, LastCut;
    if bs != [] {
      RunIsRewrite(t, cuts, r, bs[..|bs| - 1]);
    }
  }

  /** Payload reports follow from the bytes alone. */
  lemma {:induction false} FeedReports(t: Terminal, cuts: set<nat>, e: Emu, r: Run, bs: seq<byte>)
    requires e.sc == r.sc && e.reported == r.reports
    ensures FeedAll(t, e, bs).sc == NextAll(t, cuts, r, bs).sc
    ensures FeedAll(t, e, bs).reported == NextAll(t, cuts, r, bs).reports
  {
    hide Feed, Next;
    if bs != [] {
      var before, b := bs[..|bs| - 1], bs[|bs| - 1];
      FeedReports(t, cuts, e, r, before);
      FeedOneReports(t, cuts, FeedAll(t, e, before), NextAll(t, cuts, r, before), b);
    }
  }

  lemma FeedOneReports(t: Terminal, cuts: set<nat>, e: Emu, r: Run, b: byte)
    requires e.sc == r.sc && e.reported == r.reports
    ensures Feed(t, e, b).sc == Next(t, cuts, r, b).sc
    ensures Feed(t, e, b).reported == Next(t, cuts, r, b).reports
  {
    hide Step, LastCut;
    FeedRuneTotal(t, e.(sc := Step(e.sc, b).0));
  }

  lemma {:induction false} WritesReport(t: Terminal, cuts: set<nat>, e: Emu, r: Run, ps: seq<seq<byte>>)
    requires e.sc == r.sc && e.reported == r.reports
    ensures WrittenAll(t, e, ps).sc == NextAll(t, cuts, r, StripAll(ps)).sc
    ensures WrittenAll(t, e, ps).reported == NextAll(t, cuts, r, StripAll(ps)).reports
  {
    hide Step, FeedAll, Next, StripPlaceholder;
    if ps != [] {
      var before, p := ps[..|ps| - 1], StripPlaceholder(ps[|ps| - 1]);
      WritesReport(t, cuts, e, r, before);
      NextAllAppend(t, cuts, r, StripAll(before), p);
      FeedReports(t, cuts, WrittenAll(t, e, before), NextAll(t, cuts, r, StripAll(before)), p);
    }
  }

  /** A run from ground state, over the calls' bytes, ends where the calls end. */
  lemma WritesAreRun(t: Terminal, e: Emu, m: Mode, ps: seq<seq<byte>>)
    requires Grounded(e, m)
    ensures var w, r := WrittenAll(t, e, ps), NextAll(t, Cuts(ps), RunFrom(e), StripAll(ps));
            && w.run == [] && w.sc == r.sc && w.sink == r.out && w.reported == r.reports
            && (r.truncated <==> !NoTruncation(e.sc, StripAll(ps)))
  {
    hide WrittenAll, NextAll, RewriteAll, StepAll, NoTruncation, StripAll;
    WritesRefineRewriter(t, e, ps);
    WritesReport(t, Cuts(ps), e, RunFrom(e), ps);
    RunIsRewrite(t, Cuts(ps), RunFrom(e), StripAll(ps));
  }

  /** Write as a stream rewriter: whatever the bytes and the cuts, the emulator is handed the stream's tokens,
      each rewritten on its own. A rewritten CSI that was cut keeps what earlier calls forwarded of it; a
      broken character disappears, and an unfinished one is held back. */
  lemma WritesRewriteTokens(t: Terminal, e: Emu, m: Mode, ps: seq<seq<byte>>)
    requires Grounded(e, m)
    ensures var w, st := WrittenAll(t, e, ps), Tokens(StripAll(ps));
            && w.sink == OutAfterStream(t, Cuts(ps), m, e.sink, st)
            && (w.sc.node.Utf8? <==> st.rest.PartialChar?) && (w.sc.node.Utf8? ==> w.sc.utf8 == Pending(st.rest))
            && (st.rest.Nothing? ==> Grounded(w, ModeAfter(m, st.tokens)))
  {
    hide WrittenAll, NextAll, OutAfterStream, StripAll, ValidStream;
    WritesAreRun(t, e, m, ps);
    StreamDoes(t, Cuts(ps), RunFrom(e), m, Tokens(StripAll(ps)));
  }

  /** Every complete string of a stream is reported once, in order and with its content, whatever else the
      stream holds and however it is cut into calls. */
  lemma WritesReportStrings(t: Terminal, e: Emu, m: Mode, ps: seq<seq<byte>>)
    requires Grounded(e, m)
    ensures WrittenAll(t, e, ps).reported == e.reported + ReportsAfter(Tokens(StripAll(ps)).tokens)
  {
    hide WrittenAll, NextAll, OutAfterStream, StripAll, ValidStream;
    WritesAreRun(t, e, m, ps);
    StreamDoes(t, Cuts(ps), RunFrom(e), m, Tokens(StripAll(ps)));
  }

  /** A stream in which nothing is rewritten or injected passes whole, up to a character still pending, exactly
      when it holds no broken character. */
  lemma WholeTokensPass(t: Terminal, e: Emu, m: Mode, ps: seq<seq<byte>>)
    requires Sound(e.sc) && Grounded(e, m)
    requires PlainAll(t, e.sc, e.sink, StripAll(ps))
    ensures var st := Tokens(StripAll(ps));
            WrittenAll(t, e, ps).sink + Pending(st.rest) == e.sink + StripAll(ps) <==> !HasBroken(st.tokens)
  {
    hide WrittenAll, NextAll, OutAfterStream, StripAll, ValidStream, PlainAll, NoTruncation, HasBroken, PassedAll;
    WritesAreRun(t, e, m, ps);
    StreamDoes(t, Cuts(ps), RunFrom(e), m, Tokens(StripAll(ps)));
    WritesRefineRewriter(t, e, ps);
    StepAllKeepsSound(e.sc, StripAll(ps));
    StrippedWritesPass(t, e, ps);
  }

  // ---------------------------------------------------------------------------
  // Which cuts are visible

  function Offset(ks: seq<Token>, i: nat): nat
    requires i <= |ks|
  {
    |RenderAll(ks[..i])|
  }

  /** How much of token `i` came before the call that completed it. */
  function CutAt(cuts: set<nat>, ks: seq<Token>, i: nat): nat
    requires i < |ks| && Valid(ks[i])
  {
    FirstByte(ks[i]);
    CutIn(cuts, Offset(ks, i), |Render(ks[i])|)
  }

  /** The calls cut the rewritten CSIs in the same places. */
  predicate SameCuts(c1: set<nat>, c2: set<nat>, ks: seq<Token>)
    requires AllValid(ks)
  {
    forall i :: 0 <= i < |ks| && IsReplaced(ks[i]) ==> CutAt(c1, ks, i) == CutAt(c2, ks, i)
  }

  lemma SameCutsInit(c1: set<nat>, c2: set<nat>, ks: seq<Token>)
    requires ks != [] && AllValid(ks) && SameCuts(c1, c2, ks)
    ensures SameCuts(c1, c2, ks[..|ks| - 1])
  {
    hide CutIn;
    var before := ks[..|ks| - 1];
    forall i | 0 <= i < |before| && IsReplaced(before[i])
      ensures CutAt(c1, before, i) == CutAt(c2, before, i)
    {
      assert before[..i] == ks[..i] && before[i] == ks[i];
      assert CutAt(c1, ks, i) == CutAt(c2, ks, i);
    }
  }

  lemma SameCutSameToken(t: Terminal, c1: set<nat>, c2: set<nat>, m: Mode, at: nat, out: seq<byte>, k: Token)
    requires Valid(k) && (IsReplaced(k) ==> Render(k) != [] && CutIn(c1, at, |Render(k)|) == CutIn(c2, at, |Render(k)|))
    ensures OutAfterToken(t, c1, m, at, out, k) == OutAfterToken(t, c2, m, at, out, k)
  {
    hide CutIn, Shown, Render, Valid, Reported;
  }

  /** Only the cuts inside rewritten CSIs matter. */
  lemma {:induction false} OnlyRewrittenCutsMatter(t: Terminal, c1: set<nat>, c2: set<nat>, m: Mode, out: seq<byte>, ks: seq<Token>)
    requires AllValid(ks) && SameCuts(c1, c2, ks)
    ensures OutAfter(t, c1, m, out, ks) == OutAfter(t, c2, m, out, ks)
    decreases |ks|
  {
    if ks != [] {
      hide CutIn, ModeAfter, OutAfterToken, Valid, Render, RenderAll, IsReplaced;
      var (n, k) := (|ks| - 1, ks[|ks| - 1]);
      SameCutsInit(c1, c2, ks);
      OnlyRewrittenCutsMatter(t, c1, c2, m, out, ks[..n]);
      FirstByte(k);
      assert IsReplaced(k) ==> CutAt(c1, ks, n) == CutAt(c2, ks, n);
      SameCutSameToken(t, c1, c2, ModeAfter(m, ks[..n]), |RenderAll(ks[..n])|, OutAfter(t, c1, m, out, ks[..n]), k);
    }
  }

  /** Two cuttings of one stream that cut its rewritten CSIs in the same places, if at all, hand over the same
      bytes. With no such cut they are the bytes of a single call. */
  lemma SameCutsSameOutput(t: Terminal, e: Emu, m: Mode, ps: seq<seq<byte>>, cuts: set<nat>)
    requires Grounded(e, m) && SameCuts(Cuts(ps), cuts, Tokens(StripAll(ps)).tokens)
    ensures WrittenAll(t, e, ps).sink == OutAfterStream(t, cuts, m, e.sink, Tokens(StripAll(ps)))
  {
    hide WrittenAll, OutAfter, StripAll, SameCuts, ValidRest, Linked;
    WritesRewriteTokens(t, e, m, ps);
    OnlyRewrittenCutsMatter(t, Cuts(ps), cuts, m, e.sink, Tokens(StripAll(ps)).tokens);
  }

  /** Where the last call boundary inside a token is. */
  lemma CutInIs(cuts: set<nat>, at: nat, n: nat)
    requires n > 0
    ensures var k := CutIn(cuts, at, n);
            && (k > 0 ==> at + k in cuts)
            && forall i :: at + k < i < at + n ==> i !in cuts
  {
    LastCutIs(cuts, at + n - 1);
  }

  lemma {:induction false} LastCutIs(cuts: set<nat>, pos: nat)
    ensures var c := LastCut(cuts, pos);
            (c == 0 || c in cuts) && forall i :: c < i <= pos ==> i !in cuts
  {
    if pos > 0 && pos !in cuts {
      LastCutIs(cuts, pos - 1);
    }
  }

  /** A stream that has just completed a rewritten CSI, last cut after `k` of its bytes: those bytes were
      forwarded already, and the replacement follows them. */
  lemma SplitCsiKeepsPrefix(t: Terminal, e: Emu, m: Mode, ps: seq<seq<byte>>, ks: seq<Token>, c: Token)
    requires Grounded(e, m) && Tokens(StripAll(ps)) == Stream(ks + [c], Nothing)
    requires Valid(c) && IsReplaced(c)
    ensures AllValid(ks)
    ensures var k := CutIn(Cuts(ps), |RenderAll(ks)|, |Render(c)|);
            WrittenAll(t, e, ps).sink
            == OutAfter(t, Cuts(ps), m, e.sink, ks) + Render(c)[..k] + Replacement(ModeAfter(m, ks), c.body, c.final).value
  {
    hide WrittenAll, StripAll, CutIn, ControlHead, ValidRest, Valid;
    WritesRewriteTokens(t, e, m, ps);
    assert (ks + [c])[..|ks|] == ks;
    assert forall k :: k in ks ==> k in ks + [c];
    var out := OutAfter(t, Cuts(ps), m, e.sink, ks + [c]);
    assert out + [] == out;
  }

  /** Such a cut is visible: of two cuttings alike on the tokens before, the bytes handed over are the same
      if and only if the CSI is last cut in the same place. */
  lemma CsiCutVisible(t: Terminal, e: Emu, m: Mode, ps: seq<seq<byte>>, qs: seq<seq<byte>>, ks: seq<Token>, c: Token)
    requires Grounded(e, m) && StripAll(ps) == StripAll(qs) && Tokens(StripAll(ps)) == Stream(ks + [c], Nothing)
    requires Valid(c) && IsReplaced(c) && AllValid(ks) && SameCuts(Cuts(ps), Cuts(qs), ks)
    ensures WrittenAll(t, e, ps).sink == WrittenAll(t, e, qs).sink
            <==> CutIn(Cuts(ps), |RenderAll(ks)|, |Render(c)|) == CutIn(Cuts(qs), |RenderAll(ks)|, |Render(c)|)
  {
    hide WrittenAll, StripAll, CutIn, ControlHead, OutAfter, Replacement, SameCuts, Tokens;
    SplitCsiKeepsPrefix(t, e, m, ps, ks, c);
    SplitCsiKeepsPrefix(t, e, m, qs, ks, c);
    OnlyRewrittenCutsMatter(t, Cuts(ps), Cuts(qs), m, e.sink, ks);
  }

  // ---------------------------------------------------------------------------
  // Repeats over whole streams

  predicate IsCharacter(k: Token) {
    k.Char? || k.Multi?
  }

  /** From place `i` on, no character and no reset. */
  predicate NoCharacter(ks: seq<Token>, i: nat) {
    forall j :: i <= j < |ks| ==> !IsCharacter(ks[j]) && !ks[j].Reset?
  }

  /** A token that sets the replacement for itself: a public save or restore of the cursor. */
  predicate SetsReplacement(k: Token) {
    k.Control? && k.final in {0x73, 0x75} && 0x3f !in k.body
  }

  predicate NoneSet(ks: seq<Token>, i: nat) {
    forall j :: i <= j < |ks| ==> !SetsReplacement(ks[j])
  }

  lemma {:induction false} LastCharacterStays(m: Mode, ks: seq<Token>, i: nat)
    requires i <= |ks| && NoCharacter(ks, i)
    ensures ModeAfter(m, ks).lastRune == ModeAfter(m, ks[..i]).lastRune
    decreases |ks|
  {
    if i == |ks| {
      assert ks[..i] == ks;
    } else {
      var n := |ks| - 1;
      assert ks[..n][..i] == ks[..i];
      LastCharacterStays(m, ks[..n], i);
    }
  }

  lemma {:induction false} StaleStays(m: Mode, ks: seq<Token>, i: nat)
    requires i <= |ks| && NoCharacter(ks, i) && NoneSet(ks, i) && ModeAfter(m, ks[..i]).lastRune == []
    ensures ModeAfter(m, ks).replacement == ModeAfter(m, ks[..i]).replacement
    decreases |ks|
  {
    if i == |ks| {
      assert ks[..i] == ks;
    } else {
      var n := |ks| - 1;
      assert ks[..n][..i] == ks[..i];
      StaleStays(m, ks[..n], i);
      LastCharacterStays(m, ks[..n], i);
    }
  }

  /** In every stream, CSI b spells out the last character since the start or the last reset, between 1 and
      4096 times. */
  lemma RepeatsLastCharacter(m: Mode, ks: seq<Token>, i: nat, body: seq<byte>)
    requires i < |ks| && Valid(ks[i]) && IsCharacter(ks[i]) && NoCharacter(ks, i + 1)
    ensures Replacement(ModeAfter(m, ks), body, 0x62)
            == Some(Repeat(Render(ks[i]), RepeatCount(Params(ParamText(body)))))
    ensures var n := RepeatCount(Params(ParamText(body)));
            1 <= n <= REP_MAX && |Repeat(Render(ks[i]), n)| == n * |Render(ks[i])|
  {
    RepeatLength(Render(ks[i]), RepeatCount(Params(ParamText(body))));
    hide Repeat, Params, ParamText, RepeatCount;
    LastCharacterStays(m, ks, i + 1);
    assert ks[..i + 1][..i] == ks[..i];
  }

  lemma NoCharacterInPrefix(ks: seq<Token>, z: nat, i: nat)
    requires z <= i <= |ks| && NoCharacter(ks, z)
    ensures NoCharacter(ks[..i], z) && NoCharacter(ks, i) && ks[..i][..z] == ks[..z]
  {
  }

  lemma NoRuneSince(ks: seq<Token>, z: nat)
    requires z <= |ks| && (z == 0 || ks[z - 1].Reset?) && NoCharacter(ks, z)
    ensures ModeAfter(FRESH, ks).lastRune == []
  {
    hide ModeAfter, NoCharacter;
    ModeAtReset(ks, z);
    LastCharacterStays(FRESH, ks, z);
  }

  lemma SetAtEnd(ks: seq<Token>, i: nat)
    requires 0 < i <= |ks| && SetsReplacement(ks[i - 1])
    ensures ModeAfter(FRESH, ks[..i]).replacement == if ks[i - 1].final == 0x73 then [ESC, 0x37] else [ESC, 0x38]
  {
    hide ModeAfterToken, SetsReplacement;
    assert ks[..i][..i - 1] == ks[..i - 1];
    ReplacementSet(ModeAfter(FRESH, ks[..i - 1]), ks[i - 1]);
  }

  lemma RepeatOfNone(m: Mode, body: seq<byte>)
    requires m.lastRune == []
    ensures Replacement(m, body, 0x62) == Some(m.replacement)
  {
  }

  /** Where there is none since the start of a fresh emulator or since a reset (at place `z`), CSI b emits
      again what the last save or restore of the cursor since then emitted, and nothing if there is none. */
  lemma RepeatsStaleReplacement(ks: seq<Token>, z: nat, i: nat, body: seq<byte>)
    requires z <= i <= |ks| && (z == 0 || ks[z - 1].Reset?) && NoCharacter(ks, z) && NoneSet(ks, i)
    requires i == z || SetsReplacement(ks[i - 1])
    ensures Replacement(ModeAfter(FRESH, ks), body, 0x62)
            == Some(if i == z then [] else if ks[i - 1].final == 0x73 then [ESC, 0x37] else [ESC, 0x38])
  {
    hide ModeAfter, NoCharacter, NoneSet, SetsReplacement, Replacement;
    NoRuneSince(ks, z);
    RepeatOfNone(ModeAfter(FRESH, ks), body);
    NoCharacterInPrefix(ks, z, i);
    NoRuneSince(ks[..i], z);
    StaleStays(FRESH, ks, i);
    if i > z {
      SetAtEnd(ks, i);
    } else {
      ModeAtReset(ks, z);
    }
  }

  lemma ModeAtReset(ks: seq<Token>, z: nat)
    requires z <= |ks| && (z == 0 || ks[z - 1].Reset?)
    ensures ModeAfter(FRESH, ks[..z]) == FRESH
  {
  }

  lemma ReplacementSet(m: Mode, k: Token)
    requires SetsReplacement(k)
    ensures ModeAfterToken(m, k).replacement == if k.final == 0x73 then [ESC, 0x37] else [ESC, 0x38]
  {
  }

  lemma {:induction false} RepeatLength(s: seq<byte>, n: nat)
    ensures |Repeat(s, n)| == n * |s|
  {
    if n > 0 {
      RepeatLength(s, n - 1);
    }
  }

  /** A fresh emulator told to save the cursor and then to repeat saves it twice. */
  lemma RepeatReplaysSave(t: Terminal)
    ensures OutAfter(t, {}, FRESH, [], [Control([], 0x73), Control([], 0x62)]) == [ESC, 0x37, ESC, 0x37]
  {
    hide OutAfter, OutAfterToken, ModeAfter, RenderAll, Render, CutIn, Replacement;
    var save, repeat := Control([], 0x73), Control([], 0x62);
    DescribeSnoc(t, {}, FRESH, [], [], save);
    DescribeSnoc(t, {}, FRESH, [], [save], repeat);
    assert [] + [save] == [save] && [save] + [repeat] == [save, repeat];
    NoTokens(t);
    SaveReplaced();
    UncutReplaced(t, FRESH, |RenderAll([])|, [], save, [ESC, 0x37]);
    RepeatsStaleReplacement([save], 0, 1, []);
    assert [] + [ESC, 0x37] == [ESC, 0x37];
    assert OutAfter(t, {}, FRESH, [], [save]) == [ESC, 0x37];
    UncutReplaced(t, ModeAfter(FRESH, [save]), |RenderAll([save])|, [ESC, 0x37], repeat, [ESC, 0x37]);
  }

  lemma UncutReplaced(t: Terminal, m: Mode, at: nat, out: seq<byte>, k: Token, x: seq<byte>)
    requires k.Control? && Replacement(m, k.body, k.final) == Some(x)
    ensures OutAfterToken(t, {}, m, at, out, k) == out + x
  {
    hide Replacement, CutIn;
    NoCuts(at, |Render(k)|);
    assert out + Render(k)[..0] == out;
  }

  lemma SaveReplaced()
    ensures Replacement(FRESH, [], 0x73) == Some([ESC, 0x37]) && SetsReplacement(Control([], 0x73))
  {
  }

  lemma NoTokens(t: Terminal)
    ensures OutAfter(t, {}, FRESH, [], []) == [] && ModeAfter(FRESH, []) == FRESH
  {
  }

  lemma NoCuts(at: nat, n: nat)
    requires n > 0
    ensures CutIn({}, at, n) == 0
  {
    CutInIs({}, at, n);
  }
}

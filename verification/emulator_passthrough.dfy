/** When Emulator.Write leaves a stream as it is, and what it can lose of it. */
module EmulatorPassthrough {
  import opened Common
  import opened GfxScanner
  import opened EmulatorWrite
  import opened EmulatorStream
  import opened EmulatorPlaceholder
  import opened MarkerSearch

  /** Nothing is rewritten, injected or answered at this byte. */
  predicate Plain(t: Terminal, sc: Scanner, out: seq<byte>, b: byte) {
    match Step(sc, b).1
    case RuneDone => Injected(t, Step(sc, b).0, out) == []
    case CsiReplaced => false
    case Payload(kind, bytes) => t.react(kind, bytes, out + [b]) == []
    case NoEvent => true
  }

  predicate PlainAll(t: Terminal, sc: Scanner, out: seq<byte>, bs: seq<byte>) {
    bs != [] ==>
      var before := bs[..|bs| - 1];
      && PlainAll(t, sc, out, before)
      && Plain(t, StepAll(sc, before), RewriteAll(t, {}, sc, out, before), bs[|bs| - 1])
  }

  /** What is left of the bytes seen so far when `b` arrives: a truncated character is dropped. */
  function Passed(sc: Scanner, seen: seq<byte>, b: byte): seq<byte> {
    (if Truncates(sc, b) then seen[..Max(0, |seen| - |sc.utf8|)] else seen) + [b]
  }

  function PassedAll(sc: Scanner, seen: seq<byte>, bs: seq<byte>): seq<byte> {
    if bs == [] then seen
    else
      var before := bs[..|bs| - 1];
      Passed(StepAll(sc, before), PassedAll(sc, seen, before), bs[|bs| - 1])
  }

  lemma PlainStepPasses(t: Terminal, sc: Scanner, out: seq<byte>, b: byte, since: nat)
    requires Sound(sc) && Plain(t, sc, out, b)
    ensures Rewrite(t, sc, out, b, since) + Step(sc, b).0.utf8 == Passed(sc, out + sc.utf8, b)
  {
    hide Step, Rewrite, Plain;
    match sc.node
    case Utf8 => PlainUtf8Passes(t, sc, out, b, since);
    case Ground =>
      SoundAtGround(sc);
      PlainGroundPasses(t, sc, out, b, since);
      assert out + sc.utf8 == out;
    case _ =>
      PlainOtherPasses(t, sc, out, b, since);
      assert out + sc.utf8 == out;
  }

  lemma PlainGroundPasses(t: Terminal, sc: Scanner, out: seq<byte>, b: byte, since: nat)
    requires sc.utf8 == [] && sc.node.Ground? && Plain(t, sc, out, b)
    ensures Rewrite(t, sc, out, b, since) + Step(sc, b).0.utf8 == out + [b]
  {
    hide StepUtf8, StepEsc, StepCsi, Collected, Report, Injected, Need;
    assert out + [] == out && out + [b] + [] == out + [b];
  }

  lemma StepTruncates(sc: Scanner, b: byte)
    requires Truncates(sc, b)
    ensures Step(sc, b) == Step(sc.(node := Ground, utf8 := [], need := 0), b)
  {
    hide StepEsc, StepCsi, Collected, Report;
  }

  lemma StepContinues(sc: Scanner, b: byte)
    requires sc.node.Utf8? && IsContinuation(b)
    ensures var (s, ev) := Step(sc, b);
            if |sc.utf8| + 1 == sc.need then ev == RuneDone && s.rune == sc.utf8 + [b] && s.utf8 == []
            else ev == NoEvent && s.node.Utf8? && s.utf8 == sc.utf8 + [b]
  {
    hide StepGround, StepEsc, StepCsi, Collected, Report;
  }

  lemma PlainUtf8Passes(t: Terminal, sc: Scanner, out: seq<byte>, b: byte, since: nat)
    requires Plain(t, sc, out, b) && sc.node.Utf8?
    ensures Rewrite(t, sc, out, b, since) + Step(sc, b).0.utf8 == Passed(sc, out + sc.utf8, b)
  {
    hide Step;
    if Truncates(sc, b) {
      StepTruncates(sc, b);
      PlainGroundPasses(t, sc.(node := Ground, utf8 := [], need := 0), out, b, since);
      assert (out + sc.utf8)[..|out|] == out;
    } else {
      StepContinues(sc, b);
      assert out + (sc.utf8 + [b]) == out + sc.utf8 + [b] && out + [] == out;
    }
  }

  lemma PlainOtherPasses(t: Terminal, sc: Scanner, out: seq<byte>, b: byte, since: nat)
    requires Sound(sc) && Plain(t, sc, out, b) && !sc.node.Utf8? && !sc.node.Ground?
    ensures sc.utf8 == []
    ensures Rewrite(t, sc, out, b, since) + Step(sc, b).0.utf8 == out + [b]
  {
    hide Step;
    StepOutsideText(sc, b);
    assert out + [b] + [] == out + [b];
  }

  /** Where nothing is rewritten the cuts do not matter. */
  lemma PlainIgnoresSince(t: Terminal, sc: Scanner, out: seq<byte>, b: byte, n1: nat, n2: nat)
    requires Plain(t, sc, out, b)
    ensures Rewrite(t, sc, out, b, n1) == Rewrite(t, sc, out, b, n2)
  {
    hide Step;
  }

  lemma {:induction false} PlainStreamPasses(t: Terminal, cuts: set<nat>, sc: Scanner, out: seq<byte>, bs: seq<byte>)
    requires Sound(sc) && PlainAll(t, sc, out, bs)
    ensures RewriteAll(t, cuts, sc, out, bs) == RewriteAll(t, {}, sc, out, bs)
    ensures RewriteAll(t, cuts, sc, out, bs) + StepAll(sc, bs).utf8 == PassedAll(sc, out + sc.utf8, bs)
  {
    hide Rewrite, Step, Plain, Passed, LastCut;
    if bs != [] {
      var before, b := bs[..|bs| - 1], bs[|bs| - 1];
      PlainStreamPasses(t, cuts, sc, out, before);
      StepAllKeepsSound(sc, before);
      var n1, n2 := |before| - LastCut(cuts, |before|), |before| - LastCut({}, |before|);
      PlainStepPasses(t, StepAll(sc, before), RewriteAll(t, {}, sc, out, before), b, n1);
      PlainIgnoresSince(t, StepAll(sc, before), RewriteAll(t, {}, sc, out, before), b, n1, n2);
    }
  }

  /** No byte of `bs` interrupts a character. */
  predicate NoTruncation(sc: Scanner, bs: seq<byte>) {
    bs != [] ==>
      var before := bs[..|bs| - 1];
      NoTruncation(sc, before) && !Truncates(StepAll(sc, before), bs[|bs| - 1])
  }

  /** The characters pending are the bytes passed last. */
  lemma {:induction false} PendingIsLast(sc: Scanner, seen: seq<byte>, bs: seq<byte>)
    requires Sound(sc) && sc.utf8 == Tail(seen, |sc.utf8|)
    ensures var s, passed := StepAll(sc, bs), PassedAll(sc, seen, bs);
            s.utf8 == Tail(passed, |s.utf8|) && |s.utf8| <= |passed|
  {
    if bs != [] {
      var before := bs[..|bs| - 1];
      PendingIsLast(sc, seen, before);
      StepAllKeepsSound(sc, before);
      PendingStep(StepAll(sc, before), PassedAll(sc, seen, before), bs[|bs| - 1]);
    }
  }

  lemma PendingStep(s: Scanner, passed: seq<byte>, b: byte)
    requires Sound(s) && s.utf8 == Tail(passed, |s.utf8|)
    ensures var u := Step(s, b).0.utf8;
            u == Tail(Passed(s, passed, b), |u|)
  {
    hide Step;
    var u := Step(s, b).0.utf8;
    StepPending(s, b);
    if s.node.Utf8? && IsContinuation(b) {
      assert u == [] || u == s.utf8 + [b];
      assert Passed(s, passed, b) == passed + [b];
    }
  }

  lemma StepPending(s: Scanner, b: byte)
    requires Sound(s)
    ensures var u := Step(s, b).0.utf8;
            || u == []
            || u == if s.node.Utf8? && IsContinuation(b) then s.utf8 + [b] else [b]
  {
    hide StepCsi, StepEsc, Collected, Report, Need;
    if !s.node.Ground? && !s.node.Utf8? {
      StepOutsideText(s, b);
    }
  }

  /** One more byte: what passes is still whole unless the byte truncates a character. */
  lemma PassedWholeNext(s: Scanner, passed: seq<byte>, whole: seq<byte>, b: byte)
    requires Sound(s) && s.utf8 == Tail(passed, |s.utf8|) && |passed| <= |whole|
    ensures Passed(s, passed, b) == whole + [b] <==> passed == whole && !Truncates(s, b)
    ensures |Passed(s, passed, b)| <= |whole| + 1
  {
    assert (passed + [b])[..|passed|] == passed && (whole + [b])[..|whole|] == whole;
  }

  /** A stream passes whole exactly when no character in it is truncated. */
  lemma {:induction false} PassedWholeIff(sc: Scanner, seen: seq<byte>, bs: seq<byte>)
    requires Sound(sc) && sc.utf8 == Tail(seen, |sc.utf8|)
    ensures NoTruncation(sc, bs) <==> PassedAll(sc, seen, bs) == seen + bs
    ensures |PassedAll(sc, seen, bs)| <= |seen| + |bs|
  {
    hide Step, Sound, Passed, Truncates, StepAll;
    if bs != [] {
      var k := |bs| - 1;
      PassedWholeIff(sc, seen, bs[..k]);
      PendingIsLast(sc, seen, bs[..k]);
      StepAllKeepsSound(sc, bs[..k]);
      PassedWholeNext(StepAll(sc, bs[..k]), PassedAll(sc, seen, bs[..k]), seen + bs[..k], bs[k]);
      assert seen + bs[..k] + [bs[k]] == seen + bs;
    } else {
      assert seen + bs == seen;
    }
  }

  /** The same of calls that may hold placeholders: the stream is then what is left of them. */
  lemma StrippedWritesPass(t: Terminal, e: Emu, ps: seq<seq<byte>>)
    requires Sound(e.sc) && e.run == [] && e.sc.utf8 == []
    requires PlainAll(t, e.sc, e.sink, StripAll(ps))
    ensures var w, bs := WrittenAll(t, e, ps), StripAll(ps);
            && w.sink + w.sc.utf8 == PassedAll(e.sc, e.sink, bs)
            && (w.sink + w.sc.utf8 == e.sink + bs <==> NoTruncation(e.sc, bs))
  {
    hide Step, PlainAll, WrittenAll, RewriteAll, NoTruncation, PassedAll;
    WritesRefineRewriter(t, e, ps);
    PlainStreamPasses(t, Cuts(ps), e.sc, e.sink, StripAll(ps));
    assert e.sink + e.sc.utf8 == e.sink;
    PassedWholeIff(e.sc, e.sink, StripAll(ps));
  }

  /** Pass-through. For any cutting into calls of bytes in which nothing is rewritten or injected and no call holds
      a placeholder: what was forwarded, followed by the character still pending, is the bytes given without
      their truncated characters, and so it is those bytes exactly when no character is truncated. */
  lemma WritesPassThrough(t: Terminal, e: Emu, ps: seq<seq<byte>>)
    requires Sound(e.sc) && e.run == [] && e.sc.utf8 == []
    requires forall p :: p in ps ==> !Occurs(p, PLACEHOLDER)
    requires PlainAll(t, e.sc, e.sink, Concat(ps))
    ensures var w, bs := WrittenAll(t, e, ps), Concat(ps);
            && w.sink + w.sc.utf8 == PassedAll(e.sc, e.sink, bs)
            && (w.sink + w.sc.utf8 == e.sink + bs <==> NoTruncation(e.sc, bs))
  {
    StripAllIsConcat(ps);
    StrippedWritesPass(t, e, ps);
  }

  /** What a truncation drops: the bytes just passed, which are the lead byte of a character and fewer
      continuation bytes than it needs. */
  lemma LossIsTruncatedCharacter(sc: Scanner, seen: seq<byte>, bs: seq<byte>, b: byte) returns (kept: seq<byte>, lost: seq<byte>)
    requires Sound(sc) && sc.utf8 == Tail(seen, |sc.utf8|)
    requires Truncates(StepAll(sc, bs), b)
    ensures PassedAll(sc, seen, bs) == kept + lost
    ensures PassedAll(sc, seen, bs + [b]) == kept + [b]
    ensures 1 <= |lost| && IsLead(lost[0]) && |lost| < Need(lost[0])
    ensures forall i :: 1 <= i < |lost| ==> IsContinuation(lost[i])
  {
    hide Step, StepAll, Sound;
    PendingIsLast(sc, seen, bs);
    StepAllKeepsSound(sc, bs);
    assert (bs + [b])[..|bs|] == bs;
    var passed := PassedAll(sc, seen, bs);
    lost := StepAll(sc, bs).utf8;
    kept := passed[..|passed| - |lost|];
    PendingIsPartial(StepAll(sc, bs));
    assert passed == kept + Tail(passed, |lost|);
  }

  lemma PendingIsPartial(s: Scanner)
    requires Sound(s) && s.node.Utf8?
    ensures 1 <= |s.utf8| && IsLead(s.utf8[0]) && |s.utf8| < Need(s.utf8[0])
    ensures forall i :: 1 <= i < |s.utf8| ==> IsContinuation(s.utf8[i])
  {
  }
}

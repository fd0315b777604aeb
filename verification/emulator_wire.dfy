/** The writer in front of the terminal emulator (internal/capture/emulator.go) in terms of what goes over the wire:
    UTF-8, plain text, control sequences with numbers, and strings. */
module EmulatorWire {
  import opened Common
  import opened MarkerSearch
  import opened GfxScanner
  import opened EmulatorWrite
  import opened EmulatorStream
  import opened EmulatorPlaceholder
  import opened EmulatorGrammar
  import opened EmulatorTokens
  import opened EmulatorLaws

  // ---------------------------------------------------------------------------
  // Characters

  predicate IsScalar(cp: nat) {
    cp <= 0x10ffff && !(0xd800 <= cp < 0xe000)
  }

  /** The UTF-8 encoding of a character. */
  function Utf8(cp: nat): seq<byte>
    requires IsScalar(cp)
  {
    if cp < 0x80 then [cp]
    else if cp < 0x800 then [0xc0 + cp / 0x40, 0x80 + cp % 0x40]
    else if cp < 0x10000 then [0xe0 + cp / 0x1000, 0x80 + cp / 0x40 % 0x40, 0x80 + cp % 0x40]
    else [0xf0 + cp / 0x40000, 0x80 + cp / 0x1000 % 0x40, 0x80 + cp / 0x40 % 0x40, 0x80 + cp % 0x40]
  }

  function CharacterToken(cp: nat): Token
    requires IsScalar(cp)
  {
    if cp < 0x80 then Char(cp) else Multi(Utf8(cp))
  }

  /** Every character but ESC is one token. */
  lemma CharacterIsToken(cp: nat)
    requires IsScalar(cp) && cp != 0x1b
    ensures Valid(CharacterToken(cp)) && Render(CharacterToken(cp)) == Utf8(cp)
  {
  }

  /** A byte begins such a token exactly if the encoding of some character begins with it. */
  lemma LeadIff(b: byte)
    ensures IsLead(b) <==> exists cp: nat :: 0x80 <= cp && IsScalar(cp) && Utf8(cp)[0] == b
  {
    if IsLead(b) {
      var cp := if b < 0xe0 then 0x40 * (b as int - 0xc0) else if b == 0xe0 then 0x800
                else if b < 0xf0 then 0x1000 * (b as int - 0xe0)
                else if b == 0xf0 then 0x10000 else 0x40000 * (b as int - 0xf0);
      assert IsScalar(cp) && Utf8(cp)[0] == b;
    }
  }

  // ---------------------------------------------------------------------------
  // Plain text

  function Chars(bs: seq<byte>): (ks: seq<Token>)
    ensures |ks| == |bs|
  {
    seq(|bs|, i requires 0 <= i < |bs| => Char(bs[i]))
  }

  predicate IsAscii(bs: seq<byte>) {
    forall i :: 0 <= i < |bs| ==> bs[i] < 0x80 && bs[i] != 0x1b
  }

  lemma {:induction false} CharsRead(bs: seq<byte>)
    requires IsAscii(bs)
    ensures Well(Chars(bs)) && RenderAll(Chars(bs)) == bs && !EndsBroken(Chars(bs))
    decreases |bs|
  {
    if bs != [] {
      var n := |bs| - 1;
      CharsRead(bs[..n]);
      assert Chars(bs) == Chars(bs[..n]) + [Char(bs[n])];
      AddToken(Chars(bs[..n]), Char(bs[n]));
      assert bs[..n] + [bs[n]] == bs;
    }
  }

  lemma NarrowShown(t: Terminal, m: Mode, c: byte, out: seq<byte>)
    requires !m.insertMode
    ensures Shown(t, m, [c], out) == out + [c]
  {
    assert out + [] + [] + [c] == out + [c];
  }

  lemma {:induction false} CharsShown(t: Terminal, cuts: set<nat>, m: Mode, out: seq<byte>, bs: seq<byte>)
    requires !m.insertMode
    ensures OutAfter(t, cuts, m, out, Chars(bs)) == out + bs && !ModeAfter(m, Chars(bs)).insertMode
    decreases |bs|
  {
    if bs == [] {
      assert out + bs == out;
    } else {
      var n := |bs| - 1;
      hide Shown;
      CharsShown(t, cuts, m, out, bs[..n]);
      assert Chars(bs) == Chars(bs[..n]) + [Char(bs[n])];
      DescribeSnoc(t, cuts, m, out, Chars(bs[..n]), Char(bs[n]));
      NarrowShown(t, ModeAfter(m, Chars(bs[..n])), bs[n], out + bs[..n]);
      assert out + bs[..n] + [bs[n]] == out + bs;
    }
  }

  lemma AsciiHoldsNoPlaceholder(p: seq<byte>)
    requires IsAscii(p)
    ensures !Occurs(p, PLACEHOLDER)
  {
    forall i
      ensures !OccursAt(p, PLACEHOLDER, i)
    {
      assert 0 <= i <= |p| - 4 ==> p[i..i + 4][0] == p[i];
    }
  }

  lemma {:induction false} ConcatIsAscii(ps: seq<seq<byte>>)
    requires forall p :: p in ps ==> IsAscii(p)
    ensures IsAscii(Concat(ps))
    decreases |ps|
  {
    if ps != [] {
      ConcatIsAscii(ps[..|ps| - 1]);
      assert IsAscii(ps[|ps| - 1]);
    }
  }

  /** ASCII text without ESC reaches the emulator byte for byte, however it is cut into calls, outside of insert
      mode. */
  lemma AsciiPasses(t: Terminal, e: Emu, m: Mode, ps: seq<seq<byte>>)
    requires Grounded(e, m) && !m.insertMode && forall p :: p in ps ==> IsAscii(p)
    ensures WrittenAll(t, e, ps).sink == e.sink + Concat(ps)
  {
    hide WrittenAll, Concat, StripAll, IsAscii, Occurs, ValidStream, OutAfter, ModeAfter;
    forall p | p in ps
      ensures !Occurs(p, PLACEHOLDER)
    {
      AsciiHoldsNoPlaceholder(p);
    }
    StripAllIsConcat(ps);
    ConcatIsAscii(ps);
    var bs := Concat(ps);
    ReadComplete(Chars(bs), bs);
    WritesRewriteTokens(t, e, m, ps);
    CharsShown(t, Cuts(ps), m, e.sink, bs);
    assert e.sink + bs + [] == e.sink + bs;
  }

  lemma ReadComplete(ks: seq<Token>, bs: seq<byte>)
    requires IsAscii(bs) && ks == Chars(bs)
    ensures Tokens(bs) == Stream(ks, Nothing)
  {
    CharsRead(bs);
    CompleteReading(ks, bs);
  }

  lemma CompleteReading(ks: seq<Token>, bs: seq<byte>)
    requires Well(ks) && RenderAll(ks) == bs && !EndsBroken(ks)
    ensures Tokens(bs) == Stream(ks, Nothing)
  {
    assert bs + [] == bs;
    OneReading(Stream(ks, Nothing), bs);
  }

  /** What a character sends: a line break before a wide one that does not fit in the row, and in insert mode
      the request for as many blanks as it is wide. A character of one byte is one column wide. */
  lemma ShownIs(t: Terminal, m: Mode, rune: seq<byte>, out: seq<byte>)
    ensures var w := if |rune| == 1 then 1 else t.width(rune);
            Shown(t, m, rune, out)
            == out + (if w > 1 && t.column(out) + w > t.cols then [0x0d, 0x0a] else [])
               + (if m.insertMode && w > 0 then [0x1b, 0x5b] + Decimal(w) + [0x40] else []) + rune
  {
  }

  // ---------------------------------------------------------------------------
  // Numbers in control sequences

  predicate AreDigits(s: seq<byte>) {
    forall i :: 0 <= i < |s| ==> 0x30 <= s[i] <= 0x39
  }

  lemma ValueSnoc(s: seq<byte>, d: nat)
    requires AreDigits(s) && d < 10
    ensures AreDigits(s + [(0x30 + d) as byte]) && DecimalValue(s + [(0x30 + d) as byte]) == 10 * DecimalValue(s) + d
  {
    var all := s + [(0x30 + d) as byte];
    assert all[..|all| - 1] == s;
  }

  /** Decimal digits without a leading zero. */
  lemma {:induction false} DecimalIs(n: nat)
    ensures var s := Decimal(n);
            s != [] && AreDigits(s) && DecimalValue(s) == n && (n > 0 ==> s[0] != 0x30) && (n == 0 ==> s == [0x30])
    decreases n
  {
    hide DecimalValue;
    var front := if n < 10 then [] else Decimal(n / 10);
    if n >= 10 {
      DecimalIs(n / 10);
    } else {
      NoDigits();
    }
    ValueSnoc(front, n % 10);
    DecimalStep(n);
  }

  lemma NoDigits()
    ensures DecimalValue([]) == 0
  {
  }

  lemma DecimalStep(n: nat)
    ensures Decimal(n) == (if n < 10 then [] else Decimal(n / 10)) + [(0x30 + n % 10) as byte]
    ensures n == 10 * (n / 10) + n % 10
  {
  }

  /** Numbers written in decimal, with a separator between them. */
  function Joined(ns: seq<nat>, sep: byte): seq<byte>
    requires ns != []
  {
    if |ns| == 1 then Decimal(ns[0]) else Joined(ns[..|ns| - 1], sep) + [sep] + Decimal(ns[|ns| - 1])
  }

  /** What was completed before a number's digits stays completed. */
  lemma {:induction false} DigitsStayOpen(b: seq<byte>, ds: seq<byte>)
    requires forall i :: 0 <= i < |ds| ==> IsParamDigit(ds[i])
    ensures SplitParams(b + ds) == (SplitParams(b).0, SplitParams(b).1 + ds)
    decreases |ds|
  {
    var (done, open) := SplitParams(b);
    if ds == [] {
      assert b + ds == b && open + ds == open;
    } else {
      var n := |ds| - 1;
      DigitsStayOpen(b, ds[..n]);
      assert (b + ds)[..|b + ds| - 1] == b + ds[..n] && (b + ds)[|b + ds| - 1] == ds[n];
      assert open + ds[..n] + [ds[n]] == open + ds;
    }
  }

  lemma ParamValueIs(n: nat)
    ensures ParamValue(Decimal(n)) == if n <= 0x7fff_ffff_ffff_ffff then n else 0
  {
    DecimalIs(n);
  }

  lemma SeparatorCloses(b: seq<byte>, sep: byte)
    requires sep == 0x3b || sep == 0x3a
    ensures SplitParams(b + [sep]) == (SplitParams(b).0 + [ParamValue(SplitParams(b).1)], [])
  {
    assert (b + [sep])[..|b|] == b;
  }

  /** A machine integer reads back as it was written; a larger number counts as 0. */
  function Readable(ns: seq<nat>): (vs: seq<nat>)
    ensures |vs| == |ns|
  {
    seq(|ns|, i requires 0 <= i < |ns| => if ns[i] <= 0x7fff_ffff_ffff_ffff then ns[i] else 0)
  }

  /** One more number. */
  lemma NumberAdded(b: seq<byte>, done: seq<nat>, open: seq<byte>, sep: byte, n: nat)
    requires (sep == 0x3b || sep == 0x3a) && SplitParams(b) == (done, open)
    ensures SplitParams(b + [sep] + Decimal(n)) == (done + [ParamValue(open)], Decimal(n))
  {
    hide SplitParams, ParamValue, Decimal, DecimalValue;
    DecimalIs(n);
    SeparatorCloses(b, sep);
    DigitsStayOpen(b + [sep], Decimal(n));
    assert [] + Decimal(n) == Decimal(n);
  }

  lemma FirstNumber(n: nat)
    ensures SplitParams(Decimal(n)) == ([], Decimal(n))
  {
    hide Decimal, DecimalValue;
    DecimalIs(n);
    DigitsStayOpen([], Decimal(n));
    assert [] + Decimal(n) == Decimal(n);
  }

  lemma {:induction false} NumbersSplit(ns: seq<nat>, sep: byte)
    requires ns != [] && (sep == 0x3b || sep == 0x3a)
    ensures SplitParams(Joined(ns, sep)) == (Readable(ns[..|ns| - 1]), Decimal(ns[|ns| - 1]))
    decreases |ns|
  {
    hide SplitParams, ParamValue, Decimal;
    var n := |ns| - 1;
    if n == 0 {
      FirstNumber(ns[0]);
      assert Readable(ns[..0]) == [];
    } else {
      NumbersSplit(ns[..n], sep);
      ParamValueIs(ns[n - 1]);
      assert ns[..n][..n - 1] == ns[..n - 1];
      NumberAdded(Joined(ns[..n], sep), Readable(ns[..n - 1]), Decimal(ns[n - 1]), sep, ns[n]);
      assert Readable(ns[..n]) == Readable(ns[..n - 1]) + [Readable(ns)[n - 1]];
    }
  }

  /** The numbers of a control sequence are read back as they were written, with either separator. */
  lemma NumbersReadBack(ns: seq<nat>, sep: byte)
    requires ns != [] && (sep == 0x3b || sep == 0x3a)
    ensures Params(Joined(ns, sep)) == Readable(ns)
  {
    hide Joined, SplitParams, ParamValue, Decimal;
    var n := |ns| - 1;
    NumbersSplit(ns, sep);
    ParamValueIs(ns[n]);
    assert Readable(ns) == Readable(ns[..n]) + [Readable(ns)[n]];
  }

  predicate IsNumberText(s: seq<byte>) {
    forall i :: 0 <= i < |s| ==> 0x30 <= s[i] <= 0x3b
  }

  lemma {:induction false} JoinedIsText(ns: seq<nat>, sep: byte)
    requires ns != [] && (sep == 0x3b || sep == 0x3a)
    ensures IsNumberText(Joined(ns, sep))
    decreases |ns|
  {
    hide Decimal, DecimalValue;
    DecimalIs(ns[|ns| - 1]);
    if |ns| > 1 {
      JoinedIsText(ns[..|ns| - 1], sep);
    }
  }

  lemma {:induction false} TextIsParamText(s: seq<byte>)
    requires IsNumberText(s)
    ensures ParamText(s) == s && IsBody(s) && 0x3f !in s
    decreases |s|
  {
    if s != [] {
      TextIsParamText(s[..|s| - 1]);
      assert s == s[..|s| - 1] + [s[|s| - 1]];
    }
  }

  /** What a control sequence with numbers does: CSI s and CSI u become the DEC save and restore; CSI n b
      repeats the last character n times, at least once and at most 4096 times; CSI h and CSI l set and reset
      insert mode if 4 is among the numbers; nothing else is changed. */
  lemma NumberedControl(m: Mode, ns: seq<nat>, sep: byte, final: byte)
    requires ns != [] && (sep == 0x3b || sep == 0x3a)
    ensures var body := Joined(ns, sep);
            && ParamText(body) == body && Params(body) == Readable(ns)
            && Replacement(m, body, final)
               == (if final == 0x73 then Some([0x1b, 0x37]) else if final == 0x75 then Some([0x1b, 0x38])
                   else if final == 0x62 then
                     Some(if m.lastRune == [] then m.replacement
                          else Repeat(m.lastRune, Min(4096, Max(1, Readable(ns)[0]))))
                   else None)
            && ModeAfterControl(m, body, final).lastRune == m.lastRune
            && ModeAfterControl(m, body, final).insertMode
               == (if 4 in ns && final == 0x68 then true else if 4 in ns && final == 0x6c then false else m.insertMode)
  {
    hide ParamText, Params, Repeat, Joined;
    var body := Joined(ns, sep);
    NumbersReadBack(ns, sep);
    JoinedIsText(ns, sep);
    TextIsParamText(body);
    FourIsReadable(ns);
  }

  lemma FourIsReadable(ns: seq<nat>)
    ensures 4 in Readable(ns) <==> 4 in ns
  {
    if 4 in ns {
      var i :| 0 <= i < |ns| && ns[i] == 4;
      assert Readable(ns)[i] == 4;
    }
  }

  /** CSI s, CSI u, CSI h and CSI l with a "?" are left alone. */
  lemma PrivateControl(m: Mode, body: seq<byte>, final: byte)
    requires 0x3f in body && final != 0x62
    ensures Replacement(m, body, final) == None && ModeAfterControl(m, body, final) == m
  {
  }

  /** A control sequence is complete with its first byte from 0x40 to 0x7e, and no earlier. */
  lemma ControlRead(body: seq<byte>, final: byte)
    requires forall i :: 0 <= i < |body| ==> !(0x40 <= body[i] <= 0x7e)
    ensures 0x40 <= final <= 0x7e ==> Tokens([0x1b, 0x5b] + body + [final]) == Stream([Control(body, final)], Nothing)
    ensures Tokens([0x1b, 0x5b] + body) == Stream([], PartialControl(body))
  {
    hide Tokens, IsBody, IsFinal;
    ControlIsValid(body, final);
    OpenReading(PartialControl(body));
    if 0x40 <= final <= 0x7e {
      OneToken(Control(body, final));
    }
  }

  lemma ControlIsValid(body: seq<byte>, final: byte)
    requires forall i :: 0 <= i < |body| ==> !(0x40 <= body[i] <= 0x7e)
    ensures IsBody(body) && (0x40 <= final <= 0x7e <==> IsFinal(final))
  {
  }

  lemma OpenReading(rest: Rest)
    requires ValidRest(rest)
    ensures Tokens(RenderRest(rest)) == Stream([], rest)
  {
    hide Tokens, RenderRest, ValidRest;
    assert [] + RenderRest(rest) == RenderRest(rest);
    OneReading(Stream([], rest), RenderRest(rest));
  }

  lemma OneToken(k: Token)
    requires Valid(k) && !k.Broken?
    ensures Tokens(Render(k)) == Stream([k], Nothing)
  {
    hide Valid, Render;
    AddToken([], k);
    assert [] + [k] == [k] && [] + Render(k) == Render(k);
    CompleteReading([k], Render(k));
  }

  /** ESC c forgets everything; an ESC with any other byte that introduces nothing changes nothing. */
  lemma EscapeRead(m: Mode, b: byte)
    requires b !in {0x5b, 0x5d, 0x50, 0x5f}
    ensures Tokens([0x1b, b]) == Stream([if b == 0x63 then Reset else Escape(b)], Nothing)
    ensures ModeAfterToken(m, if b == 0x63 then Reset else Escape(b)) == if b == 0x63 then Mode(false, [], []) else m
  {
    OneToken(if b == 0x63 then Reset else Escape(b));
  }

  // ---------------------------------------------------------------------------
  // Strings

  function ItemsOf(bs: seq<byte>): (items: seq<Item>)
    ensures |items| == |bs|
  {
    seq(|bs|, i requires 0 <= i < |bs| => Byte(bs[i]))
  }

  lemma {:induction false} ItemsOfBytes(bs: seq<byte>)
    ensures ItemsBytes(ItemsOf(bs)) == bs && Content(ItemsOf(bs)) == bs
    decreases |bs|
  {
    if bs != [] {
      var n := |bs| - 1;
      ItemsOfBytes(bs[..n]);
      assert ItemsOf(bs)[..n] == ItemsOf(bs[..n]);
      assert bs[..n] + [bs[n]] == bs;
    }
  }

  /** A whole string, as a stream, is one token, and its bytes are reported, or nothing beyond 16 MiB. */
  lemma StringRead(kind: Kind, bs: seq<byte>, bel: bool)
    requires 0x1b !in bs && (kind.Osc? ==> 0x07 !in bs) && (bel ==> kind.Osc?)
    ensures var introducer := match kind case Osc => 0x5d as byte case Dcs => 0x50 case Apc => 0x5f;
            var stream := [0x1b, introducer] + bs + if bel then [0x07] else [0x1b, 0x5c];
            Tokens(stream) == Stream([String(kind, ItemsOf(bs), bel)], Nothing)
            && ReportsAfter([String(kind, ItemsOf(bs), bel)]) == [(kind, if |bs| <= 0x100_0000 then bs else [])]
  {
    var k := String(kind, ItemsOf(bs), bel);
    ItemsOfBytes(bs);
    OneToken(k);
    assert [k][..0] == [];
  }

  /** An ESC inside a string, with the byte after it, is not reported. */
  lemma {:induction false} EscapesAreSwallowed(a: seq<Item>, x: byte, b: seq<Item>)
    ensures Content(a + [EscPair(x)] + b) == Content(a) + Content(b)
    decreases |b|
  {
    var all := a + [EscPair(x)] + b;
    if b == [] {
      assert all == a + [EscPair(x)] && all[..|a|] == a;
      assert Content(a) + [] == Content(a);
    } else {
      var n := |b| - 1;
      assert all[..|all| - 1] == a + [EscPair(x)] + b[..n];
      EscapesAreSwallowed(a, x, b[..n]);
    }
  }

  /** A string written in any number of calls is reported once. */
  lemma StringWritten(t: Terminal, e: Emu, m: Mode, ps: seq<seq<byte>>, kind: Kind, bs: seq<byte>, bel: bool)
    requires Grounded(e, m) && 0x1b !in bs && (kind.Osc? ==> 0x07 !in bs) && (bel ==> kind.Osc?)
    requires forall p :: p in ps ==> !Occurs(p, PLACEHOLDER)
    requires Concat(ps) == [0x1b, match kind case Osc => 0x5d case Dcs => 0x50 case Apc => 0x5f] + bs
                           + if bel then [0x07] else [0x1b, 0x5c]
    ensures WrittenAll(t, e, ps).reported == e.reported + [(kind, if |bs| <= 0x100_0000 then bs else [])]
  {
    hide WrittenAll, Concat, StripAll, Occurs;
    StripAllIsConcat(ps);
    WritesReportStrings(t, e, m, ps);
    StringRead(kind, bs, bel);
  }
}

/** The grammar of terminal output: a stream is a list of characters, escape sequences, CSIs and strings,
    some characters broken off, and possibly an unfinished one at its end. Every stream of bytes is one. */
module EmulatorGrammar {
  import opened Common
  import opened GfxScanner

  // Inside a string an ESC and the byte after it are swallowed, unless they end the string.
  datatype Item = Byte(b: byte) | EscPair(x: byte)

  datatype Token =
    | Char(c: byte)
    | Multi(bytes: seq<byte>)
    | Broken(bytes: seq<byte>)
    | Stray(c: byte)
    | Escape(c: byte)
    | Reset
    | Control(body: seq<byte>, final: byte)
    | String(kind: Kind, items: seq<Item>, bel: bool)

  /** What has come of a token that is not complete. */
  datatype Rest =
    | Nothing
    | PartialChar(bytes: seq<byte>)
    | PartialEscape
    | PartialControl(body: seq<byte>)
    | PartialString(kind: Kind, items: seq<Item>, esc: bool)

  datatype Stream = Stream(tokens: seq<Token>, rest: Rest)

  // ---------------------------------------------------------------------------
  // Well-formed streams

  predicate ValidItem(kind: Kind, i: Item) {
    match i
    case Byte(b) => b != ESC && !(kind.Osc? && b == BEL)
    case EscPair(x) => x != 0x5c
  }

  predicate ValidItems(kind: Kind, items: seq<Item>) {
    forall i :: i in items ==> ValidItem(kind, i)
  }

  /** A lead byte with some of the continuation bytes it needs. */
  predicate IsCharStart(bs: seq<byte>) {
    |bs| > 0 && IsLead(bs[0]) && |bs| <= Need(bs[0]) && forall i :: 1 <= i < |bs| ==> IsContinuation(bs[i])
  }

  predicate IsPartialChar(bs: seq<byte>) {
    IsCharStart(bs) && |bs| < Need(bs[0])
  }

  predicate IsBody(body: seq<byte>) {
    forall i :: 0 <= i < |body| ==> !IsFinal(body[i])
  }

  predicate Valid(k: Token) {
    match k
    case Char(c) => c < 0x80 && c != ESC
    case Multi(bs) => IsCharStart(bs) && |bs| == Need(bs[0])
    case Broken(bs) => IsPartialChar(bs)
    case Stray(c) => c >= 0x80 && !IsLead(c)
    case Escape(c) => c !in {0x5b, 0x5d, 0x50, 0x5f, 0x63}
    case Reset => true
    case Control(body, final) => IsBody(body) && IsFinal(final)
    case String(kind, items, bel) => (bel ==> kind.Osc?) && ValidItems(kind, items)
  }

  predicate AllValid(ks: seq<Token>) {
    forall k :: k in ks ==> Valid(k)
  }

  predicate ValidRest(rest: Rest) {
    match rest
    case PartialChar(bs) => IsPartialChar(bs)
    case PartialControl(body) => IsBody(body)
    case PartialString(kind, items, _) => ValidItems(kind, items)
    case _ => true
  }

  predicate EndsBroken(ks: seq<Token>) {
    ks != [] && ks[|ks| - 1].Broken?
  }

  predicate HasBroken(ks: seq<Token>) {
    exists k :: k in ks && k.Broken?
  }

  /** A token that can follow a broken character: it does not begin with a continuation byte. */
  predicate Interrupts(k: Token) {
    k.Stray? ==> !IsContinuation(k.c)
  }

  predicate Linked(ks: seq<Token>) {
    ks != [] ==> Linked(ks[..|ks| - 1]) && (EndsBroken(ks[..|ks| - 1]) ==> Interrupts(ks[|ks| - 1]))
  }

  predicate ValidStream(st: Stream) {
    && AllValid(st.tokens) && Linked(st.tokens) && ValidRest(st.rest)
    && (EndsBroken(st.tokens) ==> st.rest != Nothing)
  }

  // ---------------------------------------------------------------------------
  // Their bytes

  function Introducer(kind: Kind): byte {
    match kind case Osc => 0x5d case Dcs => 0x50 case Apc => 0x5f
  }

  function ItemBytes(i: Item): seq<byte> {
    match i case Byte(b) => [b] case EscPair(x) => [ESC, x]
  }

  function ItemsBytes(items: seq<Item>): seq<byte> {
    if items == [] then [] else ItemsBytes(items[..|items| - 1]) + ItemBytes(items[|items| - 1])
  }

  function Terminator(bel: bool): seq<byte> {
    if bel then [BEL] else [ESC, 0x5c]
  }

  function ControlHead(body: seq<byte>): seq<byte> {
    [ESC, 0x5b] + body
  }

  function StringHead(kind: Kind, items: seq<Item>): seq<byte> {
    [ESC, Introducer(kind)] + ItemsBytes(items)
  }

  function Render(k: Token): seq<byte> {
    match k
    case Char(c) => [c]
    case Multi(bs) => bs
    case Broken(bs) => bs
    case Stray(c) => [c]
    case Escape(c) => [ESC, c]
    case Reset => [ESC, 0x63]
    case Control(body, final) => ControlHead(body) + [final]
    case String(kind, items, bel) => StringHead(kind, items) + Terminator(bel)
  }

  function RenderAll(ks: seq<Token>): seq<byte> {
    if ks == [] then [] else RenderAll(ks[..|ks| - 1]) + Render(ks[|ks| - 1])
  }

  function RenderRest(rest: Rest): seq<byte> {
    match rest
    case Nothing => []
    case PartialChar(bs) => bs
    case PartialEscape => [ESC]
    case PartialControl(body) => ControlHead(body)
    case PartialString(kind, items, esc) => StringHead(kind, items) + if esc then [ESC] else []
  }

  function RenderStream(st: Stream): seq<byte> {
    RenderAll(st.tokens) + RenderRest(st.rest)
  }

  // ---------------------------------------------------------------------------
  // Every stream of bytes is one

  /** The byte after a complete token. */
  function Begin(ks: seq<Token>, b: byte): Stream {
    if b == ESC then Stream(ks, PartialEscape)
    else if b < 0x80 then Stream(ks + [Char(b)], Nothing)
    else if IsLead(b) then Stream(ks, PartialChar([b]))
    else Stream(ks + [Stray(b)], Nothing)
  }

  function ContinueChar(ks: seq<Token>, bs: seq<byte>, b: byte): Stream
    requires |bs| > 0
  {
    if !IsContinuation(b) then Begin(ks + [Broken(bs)], b)
    else if |bs| + 1 == Need(bs[0]) then Stream(ks + [Multi(bs + [b])], Nothing)
    else Stream(ks, PartialChar(bs + [b]))
  }

  function ContinueEscape(ks: seq<Token>, b: byte): Stream {
    match b
    case 0x5b => Stream(ks, PartialControl([]))
    case 0x5d => Stream(ks, PartialString(Osc, [], false))
    case 0x50 => Stream(ks, PartialString(Dcs, [], false))
    case 0x5f => Stream(ks, PartialString(Apc, [], false))
    case 0x63 => Stream(ks + [Reset], Nothing)
    case _ => Stream(ks + [Escape(b)], Nothing)
  }

  function ContinueString(ks: seq<Token>, kind: Kind, items: seq<Item>, esc: bool, b: byte): Stream {
    if esc then
      if b == 0x5c then Stream(ks + [String(kind, items, false)], Nothing)
      else Stream(ks, PartialString(kind, items + [EscPair(b)], false))
    else if kind.Osc? && b == BEL then Stream(ks + [String(kind, items, true)], Nothing)
    else if b == ESC then Stream(ks, PartialString(kind, items, true))
    else Stream(ks, PartialString(kind, items + [Byte(b)], false))
  }

  function Extend(st: Stream, b: byte): Stream
    requires ValidRest(st.rest)
  {
    match st.rest
    case Nothing => Begin(st.tokens, b)
    case PartialChar(bs) => ContinueChar(st.tokens, bs, b)
    case PartialEscape => ContinueEscape(st.tokens, b)
    case PartialControl(body) =>
      if IsFinal(b) then Stream(st.tokens + [Control(body, b)], Nothing)
      else Stream(st.tokens, PartialControl(body + [b]))
    case PartialString(kind, items, esc) => ContinueString(st.tokens, kind, items, esc, b)
  }

  /** Tokens with an end that is still open. */
  predicate Well(ks: seq<Token>) {
    AllValid(ks) && Linked(ks)
  }

  predicate Reads(st: Stream, bs: seq<byte>) {
    ValidStream(st) && RenderStream(st) == bs
  }

  lemma AddToken(ks: seq<Token>, k: Token)
    requires Well(ks) && Valid(k) && (EndsBroken(ks) ==> Interrupts(k))
    ensures Well(ks + [k]) && (EndsBroken(ks + [k]) <==> k.Broken?)
    ensures RenderAll(ks + [k]) == RenderAll(ks) + Render(k)
  {
    hide Valid, Interrupts, Render;
    assert (ks + [k])[..|ks|] == ks;
  }

  /** Each case ends in one of two ways: a token is complete, ... */
  lemma Completed(ks: seq<Token>, k: Token)
    requires Well(ks) && Valid(k) && !k.Broken? && (EndsBroken(ks) ==> Interrupts(k))
    ensures Reads(Stream(ks + [k], Nothing), RenderAll(ks) + Render(k))
  {
    hide Valid, Render, Interrupts;
    AddToken(ks, k);
  }

  /** ... or it goes on. */
  lemma Open(ks: seq<Token>, rest: Rest)
    requires Well(ks) && ValidRest(rest) && rest != Nothing
    ensures Reads(Stream(ks, rest), RenderAll(ks) + RenderRest(rest))
  {
  }

  lemma BeginExtends(ks: seq<Token>, b: byte)
    requires Well(ks) && (EndsBroken(ks) ==> !IsContinuation(b))
    ensures Reads(Begin(ks, b), RenderAll(ks) + [b])
  {
    hide Well, Reads;
    if b == ESC {
      Open(ks, PartialEscape);
    } else if b < 0x80 {
      Completed(ks, Char(b));
    } else if IsLead(b) {
      Open(ks, PartialChar([b]));
    } else {
      Completed(ks, Stray(b));
    }
  }

  lemma CharExtends(ks: seq<Token>, bs: seq<byte>, b: byte)
    requires Well(ks) && IsPartialChar(bs)
    ensures Reads(ContinueChar(ks, bs, b), RenderAll(ks) + bs + [b])
  {
    hide Well, Reads, EndsBroken;
    assert RenderAll(ks) + bs + [b] == RenderAll(ks) + (bs + [b]);
    if !IsContinuation(b) {
      AddToken(ks, Broken(bs));
      BeginExtends(ks + [Broken(bs)], b);
    } else if |bs| + 1 == Need(bs[0]) {
      Completed(ks, Multi(bs + [b]));
    } else {
      Open(ks, PartialChar(bs + [b]));
    }
  }

  lemma EscapeExtends(ks: seq<Token>, b: byte)
    requires Well(ks)
    ensures Reads(ContinueEscape(ks, b), RenderAll(ks) + [ESC] + [b])
  {
    hide Well, Reads;
    assert RenderAll(ks) + [ESC] + [b] == RenderAll(ks) + [ESC, b];
    if b == 0x63 {
      Completed(ks, Reset);
    } else if b !in {0x5b, 0x5d, 0x50, 0x5f} {
      Completed(ks, Escape(b));
    } else {
      var rest := ContinueEscape(ks, b).rest;
      Open(ks, rest);
      assert RenderRest(rest) == [ESC, b];
    }
  }

  lemma AddItem(kind: Kind, items: seq<Item>, i: Item)
    requires ValidItems(kind, items) && ValidItem(kind, i)
    ensures ValidItems(kind, items + [i])
    ensures StringHead(kind, items + [i]) == StringHead(kind, items) + ItemBytes(i)
  {
    hide ValidItem, ItemBytes;
    assert (items + [i])[..|items|] == items;
  }

  lemma StringExtends(ks: seq<Token>, kind: Kind, items: seq<Item>, esc: bool, b: byte)
    requires Well(ks) && ValidItems(kind, items)
    ensures Reads(ContinueString(ks, kind, items, esc, b),
                  RenderAll(ks) + RenderRest(PartialString(kind, items, esc)) + [b])
  {
    hide Well, Reads, StringHead, ValidItems;
    var head, tail := StringHead(kind, items), if esc then [ESC] else [];
    assert RenderAll(ks) + (head + tail) + [b] == RenderAll(ks) + (head + (tail + [b]));
    if esc && b == 0x5c {
      Completed(ks, String(kind, items, false));
      assert tail + [b] == Terminator(false);
    } else if esc {
      AddItem(kind, items, EscPair(b));
      Open(ks, PartialString(kind, items + [EscPair(b)], false));
      assert tail + [b] == [ESC, b] && head + [ESC, b] + [] == head + [ESC, b];
    } else if kind.Osc? && b == BEL {
      Completed(ks, String(kind, items, true));
      assert tail + [b] == Terminator(true);
    } else if b == ESC {
      Open(ks, PartialString(kind, items, true));
      assert tail + [b] == [ESC];
    } else {
      AddItem(kind, items, Byte(b));
      Open(ks, PartialString(kind, items + [Byte(b)], false));
      assert tail + [b] == [b] && head + [b] + [] == head + [b];
    }
  }

  lemma ControlExtends(ks: seq<Token>, body: seq<byte>, b: byte)
    requires Well(ks) && IsBody(body)
    ensures Reads(Extend(Stream(ks, PartialControl(body)), b), RenderAll(ks) + ControlHead(body) + [b])
  {
    hide Well, Reads;
    if IsFinal(b) {
      Completed(ks, Control(body, b));
      assert RenderAll(ks) + ControlHead(body) + [b] == RenderAll(ks) + (ControlHead(body) + [b]);
    } else {
      Open(ks, PartialControl(body + [b]));
      assert RenderAll(ks) + ControlHead(body) + [b] == RenderAll(ks) + ControlHead(body + [b]);
    }
  }

  lemma ExtendReads(st: Stream, bs: seq<byte>, b: byte)
    requires Reads(st, bs)
    ensures Reads(Extend(st, b), bs + [b])
  {
    hide ValidItems, IsBody, Linked, AllValid, RenderAll, Begin, ContinueChar, ContinueEscape, ContinueString;
    match st.rest
    case Nothing => BeginExtends(st.tokens, b);
    case PartialChar(cs) => CharExtends(st.tokens, cs, b);
    case PartialEscape => EscapeExtends(st.tokens, b);
    case PartialControl(body) => ControlExtends(st.tokens, body, b);
    case PartialString(kind, items, esc) => StringExtends(st.tokens, kind, items, esc, b);
  }

  /** Reading a stream of bytes. */
  function Tokens(bs: seq<byte>): (st: Stream)
    ensures Reads(st, bs)
  {
    hide ValidStream, RenderStream, Extend;
    if bs == [] then
      NothingReads();
      Stream([], Nothing)
    else
      var before, b := Tokens(bs[..|bs| - 1]), bs[|bs| - 1];
      ExtendReads(before, bs[..|bs| - 1], b);
      ReadsRest(before, bs[..|bs| - 1]);
      Extend(before, b)
  }

  lemma NothingReads()
    ensures Reads(Stream([], Nothing), [])
  {
  }

  lemma ReadsRest(st: Stream, bs: seq<byte>)
    requires Reads(st, bs)
    ensures ValidRest(st.rest)
  {
  }

  // ---------------------------------------------------------------------------
  // ... in one way only

  function ExtendAll(st: Stream, bs: seq<byte>): (st': Stream)
    requires ValidRest(st.rest)
    ensures ValidRest(st'.rest)
  {
    if bs == [] then st
    else
      var before := ExtendAll(st, bs[..|bs| - 1]);
      ExtendKeepsRest(before, bs[|bs| - 1]);
      Extend(before, bs[|bs| - 1])
  }

  lemma ExtendKeepsRest(st: Stream, b: byte)
    requires ValidRest(st.rest)
    ensures ValidRest(Extend(st, b).rest)
  {
  }

  lemma {:induction false} ExtendAllAppend(st: Stream, a: seq<byte>, b: seq<byte>)
    requires ValidRest(st.rest)
    ensures ExtendAll(st, a + b) == ExtendAll(ExtendAll(st, a), b)
    decreases |b|
  {
    hide Extend, ValidRest;
    if b == [] {
      assert a + b == a;
    } else {
      assert (a + b)[..|a + b| - 1] == a + b[..|b| - 1];
      ExtendAllAppend(st, a, b[..|b| - 1]);
    }
  }

  lemma ExtendTwo(st: Stream, a: byte, b: byte)
    requires ValidRest(st.rest)
    ensures ExtendAll(st, [a]) == Extend(st, a)
    ensures ValidRest(Extend(st, a).rest) && ExtendAll(st, [a, b]) == Extend(Extend(st, a), b)
  {
    hide Extend, ValidRest;
    ExtendKeepsRest(st, a);
    assert [a][..0] == [] && [a, b][..1] == [a];
  }

  lemma {:induction false} TokensExtendAll(bs: seq<byte>)
    ensures Tokens(bs) == ExtendAll(Stream([], Nothing), bs)
  {
    if bs != [] {
      TokensExtendAll(bs[..|bs| - 1]);
    }
  }

  lemma {:induction false} ReadChar(ks: seq<Token>, bs: seq<byte>)
    requires IsPartialChar(bs)
    ensures ExtendAll(Stream(ks, Nothing), bs) == Stream(ks, PartialChar(bs))
    decreases |bs|
  {
    var n := |bs| - 1;
    if n == 0 {
      assert bs == [bs[0]];
      ExtendTwo(Stream(ks, Nothing), bs[0], bs[0]);
    } else {
      ReadChar(ks, bs[..n]);
      assert bs[..n] + [bs[n]] == bs;
    }
  }

  lemma {:induction false} ReadControl(ks: seq<Token>, body: seq<byte>)
    requires IsBody(body)
    ensures ExtendAll(Stream(ks, Nothing), ControlHead(body)) == Stream(ks, PartialControl(body))
    decreases |body|
  {
    if body == [] {
      ExtendTwo(Stream(ks, Nothing), ESC, 0x5b);
      assert ControlHead(body) == [ESC, 0x5b];
    } else {
      var n := |body| - 1;
      ReadControl(ks, body[..n]);
      assert ControlHead(body)[..n + 2] == ControlHead(body[..n]) && body[..n] + [body[n]] == body;
    }
  }

  lemma ReadItem(ks: seq<Token>, kind: Kind, items: seq<Item>, i: Item)
    requires ValidItems(kind, items) && ValidItem(kind, i)
    ensures ExtendAll(Stream(ks, PartialString(kind, items, false)), ItemBytes(i))
            == Stream(ks, PartialString(kind, items + [i], false))
  {
    hide ExtendAll, ValidItems;
    var st := Stream(ks, PartialString(kind, items, false));
    match i
    case Byte(b) => ExtendTwo(st, b, b);
    case EscPair(x) => ExtendTwo(st, ESC, x);
  }

  lemma {:induction false} ReadString(ks: seq<Token>, kind: Kind, items: seq<Item>)
    requires ValidItems(kind, items)
    ensures ExtendAll(Stream(ks, Nothing), StringHead(kind, items)) == Stream(ks, PartialString(kind, items, false))
    decreases |items|
  {
    if items == [] {
      ExtendTwo(Stream(ks, Nothing), ESC, Introducer(kind));
      assert StringHead(kind, items) == [ESC, Introducer(kind)];
    } else {
      hide ExtendAll, StringHead, ItemBytes, ValidItem;
      var before, last := items[..|items| - 1], items[|items| - 1];
      assert items == before + [last] && ValidItem(kind, last);
      ReadString(ks, kind, before);
      AddItem(kind, before, last);
      ExtendAllAppend(Stream(ks, Nothing), StringHead(kind, before), ItemBytes(last));
      ReadItem(ks, kind, before, last);
    }
  }

  lemma ReadEnd(ks: seq<Token>, k: Token, head: seq<byte>, st: Stream, tail: seq<byte>)
    requires ValidRest(st.rest) && ExtendAll(Stream(ks, Nothing), head) == st
    requires Render(k) == head + tail && ExtendAll(st, tail) == Stream(ks + [k], Nothing)
    ensures ExtendAll(Stream(ks, Nothing), Render(k)) == Stream(ks + [k], Nothing)
  {
    ExtendAllAppend(Stream(ks, Nothing), head, tail);
  }

  lemma ReadToken(ks: seq<Token>, k: Token)
    requires Valid(k)
    ensures ExtendAll(Stream(ks, Nothing), Render(k))
            == if k.Broken? then Stream(ks, PartialChar(k.bytes)) else Stream(ks + [k], Nothing)
  {
    hide ExtendAll, ControlHead, StringHead;
    var start := Stream(ks, Nothing);
    match k
    case Char(c) => ExtendTwo(start, c, c);
    case Stray(c) => ExtendTwo(start, c, c);
    case Escape(c) => ExtendTwo(start, ESC, c);
    case Reset => ExtendTwo(start, ESC, 0x63);
    case Broken(bs) => ReadChar(ks, bs);
    case Multi(bs) =>
      var n := |bs| - 1;
      assert IsPartialChar(bs[..n]) && bs == bs[..n] + [bs[n]];
      ReadChar(ks, bs[..n]);
      ExtendTwo(Stream(ks, PartialChar(bs[..n])), bs[n], bs[n]);
      ReadEnd(ks, k, bs[..n], Stream(ks, PartialChar(bs[..n])), [bs[n]]);
    case Control(body, final) =>
      ReadControl(ks, body);
      ExtendTwo(Stream(ks, PartialControl(body)), final, final);
      ReadEnd(ks, k, ControlHead(body), Stream(ks, PartialControl(body)), [final]);
    case String(kind, items, bel) =>
      ReadString(ks, kind, items);
      var st := Stream(ks, PartialString(kind, items, false));
      if bel {
        ExtendTwo(st, BEL, BEL);
      } else {
        ExtendTwo(st, ESC, 0x5c);
      }
      ReadEnd(ks, k, StringHead(kind, items), st, Terminator(bel));
  }

  lemma ReadRest(ks: seq<Token>, rest: Rest)
    requires ValidRest(rest)
    ensures ExtendAll(Stream(ks, Nothing), RenderRest(rest)) == Stream(ks, rest)
  {
    hide ExtendAll, ControlHead, StringHead;
    var start := Stream(ks, Nothing);
    match rest
    case Nothing => ExtendNone(start);
    case PartialChar(bs) => ReadChar(ks, bs);
    case PartialEscape => ExtendTwo(start, ESC, ESC);
    case PartialControl(body) => ReadControl(ks, body);
    case PartialString(kind, items, esc) =>
      ReadString(ks, kind, items);
      var st := Stream(ks, PartialString(kind, items, false));
      ExtendAllAppend(start, StringHead(kind, items), if esc then [ESC] else []);
      ExtendNone(st);
      ExtendTwo(st, ESC, ESC);
  }

  lemma ExtendNone(st: Stream)
    requires ValidRest(st.rest)
    ensures ExtendAll(st, []) == st
  {
  }

  lemma {:induction false} ReadAfterBroken(ks: seq<Token>, bs: seq<byte>, more: seq<byte>)
    requires IsPartialChar(bs) && more != [] && !IsContinuation(more[0])
    ensures ExtendAll(Stream(ks, PartialChar(bs)), more) == ExtendAll(Stream(ks + [Broken(bs)], Nothing), more)
    decreases |more|
  {
    var n := |more| - 1;
    if n == 0 {
      assert more == [more[0]];
      ExtendTwo(Stream(ks, PartialChar(bs)), more[0], more[0]);
      ExtendTwo(Stream(ks + [Broken(bs)], Nothing), more[0], more[0]);
    } else {
      hide Extend;
      ReadAfterBroken(ks, bs, more[..n]);
    }
  }

  lemma FirstByte(k: Token)
    requires Valid(k)
    ensures Render(k) != [] && (Interrupts(k) ==> !IsContinuation(Render(k)[0]))
  {
  }

  lemma FirstByteOfRest(rest: Rest)
    requires ValidRest(rest) && rest != Nothing
    ensures RenderRest(rest) != [] && !IsContinuation(RenderRest(rest)[0])
  {
  }

  /** Where reading stands after tokens `ks`: a broken character still looks unfinished. */
  function Standing(ks: seq<Token>): Stream {
    if EndsBroken(ks) then Stream(ks[..|ks| - 1], PartialChar(ks[|ks| - 1].bytes)) else Stream(ks, Nothing)
  }

  /** After a broken character a byte that interrupts it is read as after any other token. */
  lemma ReadOn(ks: seq<Token>, more: seq<byte>)
    requires AllValid(ks) && (EndsBroken(ks) ==> more != [] && !IsContinuation(more[0]))
    ensures ValidRest(Standing(ks).rest) && ExtendAll(Standing(ks), more) == ExtendAll(Stream(ks, Nothing), more)
  {
    hide ExtendAll;
    if EndsBroken(ks) {
      var k := ks[|ks| - 1];
      assert Valid(k) && ks == ks[..|ks| - 1] + [k];
      ReadAfterBroken(ks[..|ks| - 1], k.bytes, more);
    }
  }

  lemma StandingRest(ks: seq<Token>)
    requires AllValid(ks)
    ensures ValidRest(Standing(ks).rest)
  {
    assert EndsBroken(ks) ==> Valid(ks[|ks| - 1]);
  }

  lemma ReadNext(ks: seq<Token>, k: Token)
    requires AllValid(ks) && Valid(k) && (EndsBroken(ks) ==> Interrupts(k))
    requires ExtendAll(Stream([], Nothing), RenderAll(ks)) == Standing(ks)
    ensures ExtendAll(Stream([], Nothing), RenderAll(ks + [k])) == Standing(ks + [k])
  {
    hide ExtendAll, Valid, Render, Interrupts, AllValid;
    FirstByte(k);
    StandingRest(ks);
    ReadOn(ks, Render(k));
    ReadToken(ks, k);
    ExtendAllAppend(Stream([], Nothing), RenderAll(ks), Render(k));
    assert (ks + [k])[..|ks|] == ks;
  }

  lemma WellSplit(ks: seq<Token>)
    requires Well(ks) && ks != []
    ensures var before, k := ks[..|ks| - 1], ks[|ks| - 1];
            && ks == before + [k] && Well(before) && Valid(k) && (EndsBroken(before) ==> Interrupts(k))
  {
    hide Valid, Interrupts;
  }

  lemma {:induction false} ReadTokens(ks: seq<Token>)
    requires Well(ks)
    ensures ExtendAll(Stream([], Nothing), RenderAll(ks)) == Standing(ks)
    decreases |ks|
  {
    hide ExtendAll, Well, Valid, Interrupts, Standing, EndsBroken;
    if ks == [] {
      ExtendNone(Stream([], Nothing));
      StandingNone();
    } else {
      var before, k := ks[..|ks| - 1], ks[|ks| - 1];
      WellSplit(ks);
      ReadTokens(before);
      WellValid(before);
      ReadNext(before, k);
    }
  }

  lemma WellValid(ks: seq<Token>)
    requires Well(ks)
    ensures AllValid(ks)
  {
  }

  lemma StandingNone()
    ensures Standing([]) == Stream([], Nothing)
  {
  }

  /** The grammar is unambiguous: a stream of bytes has no other reading. */
  lemma OneReading(st: Stream, bs: seq<byte>)
    requires Reads(st, bs)
    ensures Tokens(bs) == st
  {
    hide ExtendAll, Extend, AllValid, Linked, RenderAll, RenderRest;
    ReadTokens(st.tokens);
    StandingRest(st.tokens);
    TokensExtendAll(bs);
    ExtendAllAppend(Stream([], Nothing), RenderAll(st.tokens), RenderRest(st.rest));
    if EndsBroken(st.tokens) {
      FirstByteOfRest(st.rest);
    }
    ReadOn(st.tokens, RenderRest(st.rest));
    ReadRest(st.tokens, st.rest);
  }
}

/** Emulator.Write (internal/capture/emulator.go): the bytes the wrapper hands to the terminal
    emulator for the bytes it is given. The emulator itself is a byte sink. */
module EmulatorWrite {
  import opened Common
  import opened GfxScanner

  const PLACEHOLDER: seq<byte> := [0xf4, 0x8e, 0xbb, 0xae]
  const CRLF: seq<byte> := [0x0d, 0x0a]

  /** What the wrapper asks of the emulator: the width of a character, the cursor column after the bytes
      fed so far, and the cursor move that follows a graphics payload. None of it is modelled further. */
  datatype Terminal = Terminal(
    cols: nat, width: seq<byte> -> nat, column: seq<byte> -> nat,
    react: (Kind, seq<byte>, seq<byte>) -> seq<byte>)

  datatype Emu = Emu(sc: Scanner, run: seq<byte>, sink: seq<byte>, reported: seq<(Kind, seq<byte>)>)

  /** Removes the kitty placeholder character wherever it lies whole in `p`. */
  function StripPlaceholder(p: seq<byte>): seq<byte> {
    if |p| < |PLACEHOLDER| then p
    else if p[..4] == PLACEHOLDER then StripPlaceholder(p[4..])
    else [p[0]] + StripPlaceholder(p[1..])
  }

  function Width(t: Terminal, rune: seq<byte>): nat {
    if |rune| == 1 then 1 else t.width(rune)
  }

  function Decimal(n: nat): seq<byte> {
    (if n < 10 then [] else Decimal(n / 10)) + [(0x30 + n % 10) as byte]
  }

  function InsertBlanks(w: nat): seq<byte> {
    [ESC, 0x5b] + Decimal(w) + [0x40]
  }

  /** A wide character that does not fit in the row is preceded by a line break. */
  function Wrap(t: Terminal, rune: seq<byte>, out: seq<byte>): seq<byte> {
    if Width(t, rune) > 1 && t.column(out) + Width(t, rune) > t.cols then CRLF else []
  }

  /** In insert mode a character is preceded by room for it. */
  function MakeRoom(t: Terminal, rune: seq<byte>, insertMode: bool): seq<byte> {
    if insertMode && Width(t, rune) > 0 then InsertBlanks(Width(t, rune)) else []
  }

  function Injected(t: Terminal, sc: Scanner, out: seq<byte>): seq<byte> {
    Wrap(t, sc.rune, out) + MakeRoom(t, sc.rune, sc.insertMode)
  }

  function Flush(e: Emu): Emu {
    e.(run := [], sink := e.sink + e.run)
  }

  function FeedRune(t: Terminal, e: Emu): Emu {
    var rune := e.sc.rune;
    var wrapped :=
      if Width(t, rune) > 1 then
        var f := Flush(e);
        f.(sink := f.sink + Wrap(t, rune, f.sink))
      else e;
    var roomy :=
      if e.sc.insertMode && Width(t, rune) > 0 then
        var f := Flush(wrapped);
        f.(sink := f.sink + InsertBlanks(Width(t, rune)))
      else wrapped;
    roomy.(run := roomy.run + rune)
  }

  function FeedReplacement(e: Emu): Emu {
    var cut := Min(Max(0, e.sc.csiLen - 1), |e.run|);
    e.(run := e.run[..|e.run| - cut] + e.sc.replacement)
  }

  function FeedPayload(t: Terminal, e: Emu, kind: Kind, bytes: seq<byte>): Emu {
    var f := Flush(e);
    f.(sink := f.sink + t.react(kind, bytes, f.sink), reported := f.reported + [(kind, bytes)])
  }

  /** What a Write call does with byte `b`, which completed event `ev`. */
  function FeedEvent(t: Terminal, e: Emu, b: byte, ev: Event): Emu {
    match ev
    case RuneDone => FeedRune(t, e)
    case CsiReplaced => FeedReplacement(e)
    case Payload(kind, bytes) => FeedPayload(t, e.(run := e.run + [b]), kind, bytes)
    case NoEvent => if e.sc.node.Utf8? then e else e.(run := e.run + [b])
  }

  function Feed(t: Terminal, e: Emu, b: byte): Emu {
    FeedEvent(t, e.(sc := Step(e.sc, b).0), b, Step(e.sc, b).1)
  }

  function FeedAll(t: Terminal, e: Emu, bs: seq<byte>): Emu {
    if bs == [] then e else Feed(t, FeedAll(t, e, bs[..|bs| - 1]), bs[|bs| - 1])
  }

  /** A whole Write call. */
  function Written(t: Terminal, e: Emu, p: seq<byte>): Emu {
    Flush(FeedAll(t, e, StripPlaceholder(p)))
  }

  function WrittenAll(t: Terminal, e: Emu, ps: seq<seq<byte>>): Emu {
    if ps == [] then e else Written(t, WrittenAll(t, e, ps[..|ps| - 1]), ps[|ps| - 1])
  }

  lemma ReplacedHasLength(sc: Scanner, b: byte)
    requires Step(sc, b).1 == CsiReplaced
    ensures Step(sc, b).0.csiLen > 0
  {
  }

  class Emulator {
    const t: Terminal
    const scanner: ByteScanner
    // Everything handed to the terminal emulator, and every payload handed to the graphics extractor.
    var sink: seq<byte>
    var reported: seq<(Kind, seq<byte>)>

    ghost function View(): Emu
      reads this, scanner
    {
      Emu(scanner.View(), [], sink, reported)
    }

    constructor (t: Terminal)
      ensures View() == Emu(INITIAL, [], [], []) && this.t == t && fresh(scanner)
    {
      this.t, sink, reported := t, [], [];
      scanner := new ByteScanner();
    }

    method EmitRune(pending: seq<byte>) returns (run: seq<byte>)
      modifies this`sink
      ensures Emu(scanner.View(), run, sink, reported) == FeedRune(t, Emu(scanner.View(), pending, old(sink), reported))
    {
      run := pending;
      var w := Width(t, scanner.rune);
      if w > 1 {
        sink, run := sink + run, [];
        if t.column(sink) + w > t.cols {
          sink := sink + CRLF;
        }
      }
      if scanner.insertMode && w > 0 {
        sink, run := sink + run, [];
        sink := sink + InsertBlanks(w);
      }
      run := run + scanner.rune;
    }

    method SpliceReplacement(pending: seq<byte>) returns (run: seq<byte>)
      requires scanner.csiLen > 0
      ensures Emu(scanner.View(), run, sink, reported) == FeedReplacement(Emu(scanner.View(), pending, sink, reported))
    {
      var cut := scanner.csiLen - 1;
      if cut > |pending| {
        cut := |pending|;
      }
      run := pending[..|pending| - cut];
      run := run + scanner.replacement;
    }

    method HandlePayload(pending: seq<byte>, kind: Kind, bytes: seq<byte>)
      modifies this
      ensures Emu(scanner.View(), [], sink, reported)
              == FeedPayload(t, Emu(scanner.View(), pending, old(sink), old(reported)), kind, bytes)
    {
      sink := sink + pending;
      sink := sink + t.react(kind, bytes, sink);
      reported := reported + [(kind, bytes)];
    }

    /** The length returned is that of the bytes left once placeholders are removed. */
    method Write(p: seq<byte>) returns (n: nat)
      modifies this, scanner
      ensures View() == Written(t, old(View()), p)
      ensures n == |StripPlaceholder(p)|
    {
      var q := StripPlaceholder(p);
      var run := [];
      for i := 0 to |q|
        invariant Emu(scanner.View(), run, sink, reported) == FeedAll(t, old(View()), q[..i])
      {
        assert q[..i + 1][..i] == q[..i];
        ghost var before := FeedAll(t, old(View()), q[..i]);
        var ev := scanner.Advance(q[i]);
        assert (scanner.View(), ev) == Step(before.sc, q[i]);
        match ev
        case RuneDone => run := EmitRune(run);
        case CsiReplaced =>
          ReplacedHasLength(before.sc, q[i]);
          run := SpliceReplacement(run);
        case Payload(kind, bytes) =>
          HandlePayload(run + [q[i]], kind, bytes);
          run := [];
        case NoEvent =>
          if !scanner.node.Utf8? {
            run := run + [q[i]];
          }
      }
      assert q[..|q|] == q;
      sink := sink + run;
      n := |q|;
    }
  }
}

/** The attached capture: the browser splits its picture into frames (apps/web/src/utils/session-channel.ts)
    and the session reassembles them for one waiter (internal/session/capture.go). */
module CaptureAssembly {
  import opened Common

  const MAX_CAPTURE_CHUNKS := 1024
  const CAPTURE_CHUNK := 24000

  datatype ResultFrame = ResultFrame(sq: int, total: int, data: string, error: string, cols: nat, rows: nat)

  datatype Reply = Picture(b64: string, cols: nat, rows: nat) | Failure(error: string)

  // The waiter's reply channel holds one reply: a second one is dropped.
  datatype Capture = Capture(waiter: Option<nat>, chunks: seq<string>, reply: Option<Reply>)

  datatype BeginError = CaptureBusy

  function Begun(c: Capture, id: nat): Capture {
    if c.waiter.Some? then c else Capture(Some(id), [], None)
  }

  function Ended(c: Capture, id: nat): Capture {
    c.(waiter := if c.waiter == Some(id) then None else c.waiter, chunks := [])
  }

  function Offer(c: Capture, r: Reply): Capture {
    if c.reply.None? then c.(reply := Some(r)) else c
  }

  function Resolved(c: Capture, f: ResultFrame): Capture {
    if c.waiter.None? then c
    else if f.error != "" then Offer(c.(chunks := []), Failure(f.error))
    else if f.total <= 0 || f.total > MAX_CAPTURE_CHUNKS || f.sq != |c.chunks| then c.(chunks := [])
    else
      var chunks := c.chunks + [f.data];
      if |chunks| < f.total then c.(chunks := chunks)
      else Offer(c.(chunks := []), Picture(Concat(chunks), f.cols, f.rows))
  }

  function ResolvedAll(c: Capture, fs: seq<ResultFrame>): Capture {
    if fs == [] then c else Resolved(ResolvedAll(c, fs[..|fs| - 1]), fs[|fs| - 1])
  }

  /** A second capture is refused while one waits, and changes nothing; the end of a capture takes out its own waiter
      only, but always drops the partial picture. */
  lemma WaitersTakeTurns(c: Capture, id: nat)
    ensures Begun(c, id) == if c.waiter.Some? then c else Capture(Some(id), [], None)
    ensures Ended(c, id) == Capture(if c.waiter == Some(id) then None else c.waiter, [], c.reply)
  {
  }

  class Waiter {
    var waiter: Option<nat>
    var chunks: seq<string>
    var reply: Option<Reply>

    ghost function View(): Capture
      reads this
    {
      Capture(waiter, chunks, reply)
    }

    constructor ()
      ensures View() == Capture(None, [], None)
    {
      waiter, chunks, reply := None, [], None;
    }

    method Begin(id: nat) returns (r: Result<(), BeginError>)
      modifies this
      ensures View() == Begun(old(View()), id)
      ensures r.Err? <==> old(waiter).Some?
    {
      if waiter.Some? {
        return Err(CaptureBusy);
      }
      waiter, chunks, reply := Some(id), [], None;
      r := Ok(());
    }

    method End(id: nat)
      modifies this
      ensures View() == Ended(old(View()), id)
    {
      if waiter == Some(id) {
        waiter := None;
      }
      chunks := [];
    }

    method SendReply(r: Reply)
      modifies this`reply
      ensures View() == Offer(old(View()), r)
    {
      if reply.None? {
        reply := Some(r);
      }
    }

    method ResolveCapture(f: ResultFrame)
      modifies this
      ensures View() == Resolved(old(View()), f)
    {
      if waiter.None? {
        return;
      }
      if f.error != "" {
        chunks := [];
        SendReply(Failure(f.error));
        return;
      }
      if f.total <= 0 || f.total > MAX_CAPTURE_CHUNKS || f.sq != |chunks| {
        chunks := [];
        return;
      }
      chunks := chunks + [f.data];
      if |chunks| < f.total {
        return;
      }
      var full := Picture(Concat(chunks), f.cols, f.rows);
      chunks := [];
      SendReply(full);
    }
  }

  // ---------------------------------------------------------------------------
  // The browser's half

  function Pieces(n: nat): (total: nat)
    ensures total >= 1
  {
    if n == 0 then 1 else (n + CAPTURE_CHUNK - 1) / CAPTURE_CHUNK
  }

  /** What a slice reads: the part of [i * CHUNK, (i + 1) * CHUNK) that exists. */
  function Piece(png: string, i: nat): string {
    var from := Min(i * CAPTURE_CHUNK, |png|);
    png[from..Min(from + CAPTURE_CHUNK, |png|)]
  }

  /** One frame for each piece, numbered from 0. */
  function Numbered(ss: seq<string>, cols: nat, rows: nat): (fs: seq<ResultFrame>)
    ensures |fs| == |ss|
  {
    seq(|ss|, i requires 0 <= i < |ss| => ResultFrame(i, |ss|, ss[i], "", cols, rows))
  }

  function Slices(png: string, n: nat): (ss: seq<string>)
    ensures |ss| == n
  {
    seq(n, i requires i >= 0 => Piece(png, i))
  }

  function CaptureFrames(png: string, cols: nat, rows: nat): (fs: seq<ResultFrame>)
    ensures |fs| == Pieces(|png|)
  {
    Numbered(Slices(png, Pieces(|png|)), cols, rows)
  }

  method OnCaptureRequest(png: string, cols: nat, rows: nat) returns (fs: seq<ResultFrame>)
    ensures png == "" ==> |fs| == 1 && fs[0].error != "" && fs[0].total == 0
    ensures png != "" ==> fs == CaptureFrames(png, cols, rows)
  {
    if png == "" {
      return [ResultFrame(0, 0, "", "capture unavailable", 0, 0)];
    }
    var total := Pieces(|png|);
    fs := [];
    for i := 0 to total
      invariant fs == CaptureFrames(png, cols, rows)[..i]
    {
      fs := fs + [ResultFrame(i, total, Piece(png, i), "", cols, rows)];
    }
  }

  // ---------------------------------------------------------------------------
  // Properties

  /** Frame `f` may stand at place `i` of a picture that was not complete before it. */
  predicate Fits(f: ResultFrame, i: nat) {
    f.sq == i && f.error == "" && 0 < f.total <= MAX_CAPTURE_CHUNKS
  }

  /** The last `k` frames are numbered 0, 1, ..., k - 1, and none of them completes a picture. */
  predicate OpenRun(fs: seq<ResultFrame>, k: nat) {
    && k <= |fs|
    && (forall i :: |fs| - k <= i < |fs| ==> Fits(fs[i], i - (|fs| - k)) && fs[i].total > i + 1 - (|fs| - k))
  }

  function DataOf(fs: seq<ResultFrame>): (ds: seq<string>)
    ensures |ds| == |fs| && forall i :: 0 <= i < |fs| ==> ds[i] == fs[i].data
  {
    seq(|fs|, i requires 0 <= i < |fs| => fs[i].data)
  }

  /** `r` is the picture carried by the `k` frames that end at position `n`. */
  predicate IsPictureOf(fs: seq<ResultFrame>, n: nat, k: nat, r: Reply) {
    && 0 < k <= n <= |fs| && k <= MAX_CAPTURE_CHUNKS
    && OpenRun(fs[..n - 1], k - 1)
    && Fits(fs[n - 1], k - 1) && fs[n - 1].total <= k
    && r == Picture(Concat(DataOf(fs[n - k..n])), fs[n - 1].cols, fs[n - 1].rows)
  }

  ghost predicate HasPicture(fs: seq<ResultFrame>, r: Reply) {
    exists n: nat, k: nat :: IsPictureOf(fs, n, k, r)
  }

  lemma PictureOfLonger(before: seq<ResultFrame>, f: ResultFrame, r: Reply)
    requires HasPicture(before, r)
    ensures HasPicture(before + [f], r)
  {
    var n: nat, k: nat :| IsPictureOf(before, n, k, r);
    assert (before + [f])[n - k..n] == before[n - k..n];
    assert (before + [f])[..n - 1] == before[..n - 1];
    assert IsPictureOf(before + [f], n, k, r);
  }

  /** A failed capture is answered at once with its error, and drops the partial picture. */
  lemma FailureAnswers(c: Capture, f: ResultFrame)
    requires c.waiter.Some? && f.error != ""
    ensures Resolved(c, f) == Capture(c.waiter, [], if c.reply.Some? then c.reply else Some(Failure(f.error)))
  {
  }

  /** Without a waiter every frame is dropped; the first reply stays; and frames never change the waiter. */
  lemma {:induction false} FirstReplyStays(c: Capture, fs: seq<ResultFrame>)
    ensures c.waiter.None? ==> ResolvedAll(c, fs) == c
    ensures c.reply.Some? ==> ResolvedAll(c, fs).reply == c.reply
    ensures ResolvedAll(c, fs).waiter == c.waiter
    decreases |fs|
  {
    hide Concat;
    if fs != [] {
      FirstReplyStays(c, fs[..|fs| - 1]);
    }
  }

  /** A failure handed to the waiter is the error of some frame that came. */
  lemma {:induction false} FailureWasSent(c: Capture, fs: seq<ResultFrame>)
    requires c.reply.None?
    ensures var r := ResolvedAll(c, fs).reply;
            r.Some? && r.value.Failure? ==> r.value.error != "" && exists i :: 0 <= i < |fs| && fs[i].error == r.value.error
    decreases |fs|
  {
    hide Concat;
    if fs != [] {
      var n := |fs| - 1;
      FailureWasSent(c, fs[..n]);
      var r := ResolvedAll(c, fs[..n]).reply;
      if r.Some? && r.value.Failure? {
        var i :| 0 <= i < n && fs[..n][i].error == r.value.error;
        assert fs[i].error == r.value.error;
      }
    }
  }

  /** What a waiter's state owes to the frames received since it registered: the partial picture is the data
      of the latest ones, numbered 0, 1, 2, ... without a gap, and stays below the frame limit; and a picture
      already handed over is the data of consecutive frames numbered from 0. */
  ghost predicate Assembled(c: Capture, fs: seq<ResultFrame>) {
    && |c.chunks| < MAX_CAPTURE_CHUNKS
    && OpenRun(fs, |c.chunks|) && c.chunks == DataOf(fs[|fs| - |c.chunks|..])
    && (c.reply.Some? && c.reply.value.Picture? ==> HasPicture(fs, c.reply.value))
  }

  lemma RunGrows(before: seq<ResultFrame>, k: nat, f: ResultFrame)
    requires OpenRun(before, k) && Fits(f, k)
    ensures var fs := before + [f];
            && DataOf(fs[|fs| - (k + 1)..]) == DataOf(before[|before| - k..]) + [f.data]
            && (f.total > k + 1 ==> OpenRun(fs, k + 1))
  {
    assert (before + [f])[|before| - k..] == before[|before| - k..] + [f];
  }

  lemma RunCompletes(before: seq<ResultFrame>, k: nat, f: ResultFrame)
    requires OpenRun(before, k) && Fits(f, k) && f.total <= k + 1 <= MAX_CAPTURE_CHUNKS
    ensures HasPicture(before + [f], Picture(Concat(DataOf(before[|before| - k..]) + [f.data]), f.cols, f.rows))
  {
    var fs, n := before + [f], |before| + 1;
    RunGrows(before, k, f);
    assert fs[..n - 1] == before && fs[n - (k + 1)..n] == fs[n - (k + 1)..];
    assert IsPictureOf(fs, n, k + 1, Picture(Concat(DataOf(before[|before| - k..]) + [f.data]), f.cols, f.rows));
  }

  lemma ResolvedKeepsRun(c: Capture, before: seq<ResultFrame>, f: ResultFrame)
    requires c.waiter.Some? && Assembled(c, before)
    ensures Assembled(Resolved(c, f), before + [f])
  {
    hide HasPicture, Concat;
    var k := |c.chunks|;
    if c.reply.Some? && c.reply.value.Picture? {
      PictureOfLonger(before, f, c.reply.value);
    }
    if Fits(f, k) {
      RunGrows(before, k, f);
      if f.total <= k + 1 {
        RunCompletes(before, k, f);
      }
    }
  }

  /** A waiter registered at any time, against any stream of frames. */
  lemma {:induction false} AssemblesConsecutiveFrames(c0: Capture, id: nat, fs: seq<ResultFrame>)
    requires c0.waiter.None?
    ensures var c := ResolvedAll(Begun(c0, id), fs); c.waiter == Some(id) && Assembled(c, fs)
  {
    if fs != [] {
      var before, f := fs[..|fs| - 1], fs[|fs| - 1];
      assert fs == before + [f];
      AssemblesConsecutiveFrames(c0, id, before);
      ResolvedKeepsRun(ResolvedAll(Begun(c0, id), before), before, f);
    }
  }

  datatype Op = OpBegin(id: nat) | OpEnd(id: nat) | OpFrame(frame: ResultFrame)

  /** The captures under way beside the shared state: those that registered and have not ended. */
  datatype System = System(capture: Capture, active: set<nat>)

  /** Each capture runs the ending step once, and only if its registration succeeded. */
  predicate Enabled(s: System, op: Op) {
    match op
    case OpBegin(id) => id !in s.active
    case OpEnd(id) => id in s.active
    case OpFrame(_) => true
  }

  function Do(s: System, op: Op): System {
    match op
    case OpBegin(id) => System(Begun(s.capture, id), if s.capture.waiter.None? then s.active + {id} else s.active)
    case OpEnd(id) => System(Ended(s.capture, id), s.active - {id})
    case OpFrame(f) => System(Resolved(s.capture, f), s.active)
  }

  predicate IsRun(tr: seq<System>, ops: seq<Op>) {
    && |tr| == |ops| + 1
    && tr[0] == System(Capture(None, [], None), {})
    && forall i :: 0 <= i < |ops| ==> Enabled(tr[i], ops[i]) && tr[i + 1] == Do(tr[i], ops[i])
  }

  /** In every run at most one capture is under way, it is the registered waiter (so the ownership test in the
      ending step always holds), and no partial picture outlives it. */
  lemma {:induction false} OneWaiter(tr: seq<System>, ops: seq<Op>, n: nat)
    requires IsRun(tr, ops) && n <= |ops|
    ensures var s := tr[n];
            && s.active == (if s.capture.waiter.Some? then {s.capture.waiter.value} else {})
            && (s.capture.waiter.None? ==> s.capture.chunks == [])
    decreases n
  {
    if n > 0 {
      OneWaiter(tr, ops, n - 1);
    }
  }

  lemma {:induction false} SlicesCover(png: string, n: nat)
    requires png != "" && n <= Pieces(|png|)
    ensures Concat(Slices(png, n)) == png[..Min(n * CAPTURE_CHUNK, |png|)]
    decreases n
  {
    if n > 0 {
      SlicesCover(png, n - 1);
      assert Slices(png, n) == Slices(png, n - 1) + [Piece(png, n - 1)];
      ConcatSnoc(Slices(png, n - 1), Piece(png, n - 1));
      PieceFollows(png, n - 1);
    }
  }

  lemma PieceFollows(png: string, i: nat)
    ensures png[..Min(i * CAPTURE_CHUNK, |png|)] + Piece(png, i) == png[..Min((i + 1) * CAPTURE_CHUNK, |png|)]
  {
  }

  /** A frame that continues the picture without completing it. */
  lemma ResolvedGrows(c: Capture, f: ResultFrame)
    requires c.waiter.Some? && Fits(f, |c.chunks|) && f.total > |c.chunks| + 1
    ensures Resolved(c, f) == c.(chunks := c.chunks + [f.data])
  {
  }

  /** The frame that completes it. */
  lemma ResolvedCompletes(c: Capture, f: ResultFrame)
    requires c.waiter.Some? && Fits(f, |c.chunks|) && f.total == |c.chunks| + 1
    ensures Resolved(c, f) == Offer(c.(chunks := []), Picture(Concat(c.chunks + [f.data]), f.cols, f.rows))
  {
    hide Concat, Offer;
  }

  /** A frame out of order, or of a picture with too many frames. */
  lemma ResolvedDrops(c: Capture, f: ResultFrame)
    requires c.waiter.Some? && f.error == "" && (f.total > MAX_CAPTURE_CHUNKS || f.sq != |c.chunks|)
    ensures Resolved(c, f) == c.(chunks := [])
  {
  }

  lemma ResolvedAllSnoc(c: Capture, fs: seq<ResultFrame>, n: nat)
    requires n < |fs|
    ensures ResolvedAll(c, fs[..n + 1]) == Resolved(ResolvedAll(c, fs[..n]), fs[n])
  {
    hide Resolved;
    assert fs[..n + 1][..n] == fs[..n];
  }

  lemma {:induction false} FeedGrows(c: Capture, ss: seq<string>, cols: nat, rows: nat, n: nat)
    requires c.waiter.Some? && c.chunks == [] && n < |ss| <= MAX_CAPTURE_CHUNKS
    ensures ResolvedAll(c, Numbered(ss, cols, rows)[..n]) == c.(chunks := ss[..n])
    decreases n
  {
    hide Resolved, Concat;
    if n > 0 {
      FeedGrows(c, ss, cols, rows, n - 1);
      var fs := Numbered(ss, cols, rows);
      ResolvedAllSnoc(c, fs, n - 1);
      ResolvedGrows(c.(chunks := ss[..n - 1]), fs[n - 1]);
      assert ss[..n] == ss[..n - 1] + [ss[n - 1]];
    }
  }

  lemma {:induction false} FeedDrops(c: Capture, ss: seq<string>, cols: nat, rows: nat, n: nat)
    requires c.waiter.Some? && 0 < n <= |ss| && (c.chunks != [] || |ss| > MAX_CAPTURE_CHUNKS)
    ensures ResolvedAll(c, Numbered(ss, cols, rows)[..n]) == c.(chunks := [])
    decreases n
  {
    hide Resolved, Concat;
    var fs := Numbered(ss, cols, rows);
    ResolvedAllSnoc(c, fs, n - 1);
    if n == 1 {
      assert fs[..0] == [];
      ResolvedDrops(c, fs[0]);
    } else {
      FeedDrops(c, ss, cols, rows, n - 1);
      ResolvedDrops(c.(chunks := []), fs[n - 1]);
    }
  }

  /** Any picture in any number of pieces, fed in order to any pending waiter: the waiter is offered the whole of
      it if it held no partial picture and the pieces are not too many; otherwise it is told nothing, and the
      partial picture it held is lost. */
  lemma AnySplitAssembles(c: Capture, ss: seq<string>, cols: nat, rows: nat)
    requires c.waiter.Some? && ss != []
    ensures ResolvedAll(c, Numbered(ss, cols, rows))
            == if |ss| <= 1024 && c.chunks == []
               then Offer(c, Picture(Concat(ss), cols, rows)) else c.(chunks := [])
  {
    hide Resolved, Concat;
    var (fs, n) := (Numbered(ss, cols, rows), |ss| - 1);
    assert fs[..n + 1] == fs;
    if |ss| <= MAX_CAPTURE_CHUNKS && c.chunks == [] {
      FeedGrows(c, ss, cols, rows, n);
      ResolvedAllSnoc(c, fs, n);
      ResolvedCompletes(c.(chunks := ss[..n]), fs[n]);
      assert ss[..n] + [ss[n]] == ss;
    } else {
      FeedDrops(c, ss, cols, rows, n + 1);
    }
  }

  /** Round trip: what the browser splits, any pending waiter is offered whole, if and only if it held no partial
      picture and the picture takes no more than the allowed number of frames. */
  lemma SplitThenAssemble(c: Capture, png: string, cols: nat, rows: nat)
    requires c.waiter.Some? && png != ""
    ensures ResolvedAll(c, CaptureFrames(png, cols, rows))
            == if |png| <= 1024 * 24000 && c.chunks == []
               then Offer(c, Picture(png, cols, rows)) else c.(chunks := [])
  {
    hide ResolvedAll, Offer, Concat, Numbered;
    var n := Pieces(|png|);
    AnySplitAssembles(c, Slices(png, n), cols, rows);
    SlicesCover(png, n);
    assert png[..Min(n * CAPTURE_CHUNK, |png|)] == png;
  }
}

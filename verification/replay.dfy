/** Attach-time replay of the output tail (internal/session/session.go, replayOutput and alignTailStart). */
module Replay {
  import opened Common
  import opened RouteCodec

  const ATTACH_REPLAY_TAIL_BYTES := 256 * 1024
  const REPLAY_CHUNK := 32 * 1024
  const ESC_REWIND := 1024

  /** The first position at or after `start` that does not hold a UTF-8 continuation byte. */
  function SkipContinuation(b: seq<byte>, start: nat): (r: nat)
    requires start <= |b|
    ensures start <= r <= |b|
    ensures forall i :: start <= i < r ==> IsContinuation(b[i])
    ensures r < |b| ==> !IsContinuation(b[r])
    decreases |b| - start
  {
    if start < |b| && IsContinuation(b[start]) then SkipContinuation(b, start + 1) else start
  }

  /** The last ESC strictly before `end` and no lower than `low`, or None. */
  function LastEsc(b: seq<byte>, low: nat, end: nat): (r: Option<nat>)
    requires low <= end <= |b|
    ensures r.Some? ==> low <= r.value < end && b[r.value] == ESC
    ensures forall i :: low <= i < end && (r.Some? ==> r.value < i) ==> b[i] != ESC
    decreases end
  {
    if end == low then None
    else if b[end - 1] == ESC then Some(end - 1)
    else LastEsc(b, low, end - 1)
  }

  function AlignStart(b: seq<byte>, start: nat): (r: nat)
    ensures start <= |b| ==> start - ESC_REWIND <= r <= |b|
  {
    if start >= |b| then start
    else
      var s := SkipContinuation(b, start);
      match LastEsc(b, Max(0, s - ESC_REWIND), s)
      case Some(i) => i
      case None => s
  }

  method AlignTailStart(b: seq<byte>, start: nat) returns (r: nat)
    ensures r == AlignStart(b, start)
  {
    if start >= |b| {
      return start;
    }
    var s := start;
    while s < |b| && IsContinuation(b[s])
      invariant start <= s <= |b|
      invariant SkipContinuation(b, s) == SkipContinuation(b, start)
    {
      s := s + 1;
    }
    var i := s - 1;
    while i >= 0 && s - i <= ESC_REWIND
      invariant -1 <= i < s && Max(0, s - ESC_REWIND) <= i + 1
      invariant LastEsc(b, Max(0, s - ESC_REWIND), i + 1) == LastEsc(b, Max(0, s - ESC_REWIND), s)
    {
      if b[i] == ESC {
        return i;
      }
      i := i - 1;
    }
    return s;
  }

  /** The part of a snapshot that is replayed. */
  function ReplayTail(data: seq<byte>): seq<byte> {
    if |data| > ATTACH_REPLAY_TAIL_BYTES
    then data[AlignStart(data, |data| - ATTACH_REPLAY_TAIL_BYTES)..]
    else data
  }

  function Chunks(data: seq<byte>): (cs: seq<seq<byte>>) {
    if data == [] then []
    else
      var n := Min(|data|, REPLAY_CHUNK);
      [data[..n]] + Chunks(data[n..])
  }

  /** The output frames that carry `data` in chunks. */
  function OutputFrames(data: seq<byte>): (fs: seq<seq<byte>>)
    ensures |fs| == |Chunks(data)|
  {
    var cs := Chunks(data);
    seq(|cs|, i requires 0 <= i < |cs| => Frame(OUTPUT, cs[i]))
  }

  /** The session frames a full replay puts on the wire. */
  function ReplayFrames(snapshot: seq<byte>): seq<seq<byte>> {
    OutputFrames(ReplayTail(snapshot))
  }

  /** Writing `frames` to a connection that takes `accepted` writes and fails the next one. */
  predicate Written(frames: seq<seq<byte>>, accepted: nat, sent: seq<seq<byte>>, ok: bool) {
    && (ok <==> |frames| <= accepted)
    && sent == frames[..Min(accepted, |frames|)]
  }

  method SendChunks(all: seq<byte>, accepted: nat) returns (sent: seq<seq<byte>>, ok: bool)
    ensures Written(OutputFrames(all), accepted, sent, ok)
  {
    sent := [];
    var data := all;
    ghost var cs := Chunks(all);
    while |data| > 0
      invariant |sent| <= accepted && |sent| <= |cs|
      invariant cs[|sent|..] == Chunks(data)
      invariant forall i :: 0 <= i < |sent| ==> sent[i] == Frame(OUTPUT, cs[i])
      decreases |data|
    {
      var n := |data|;
      if n > REPLAY_CHUNK {
        n := REPLAY_CHUNK;
      }
      assert cs[|sent|] == cs[|sent|..][0] == data[..n];
      if |sent| == accepted {
        return sent, false;
      }
      var frame := EncodeFrame(OUTPUT, data[..n]);
      sent := sent + [frame];
      data := data[n..];
    }
    return sent, true;
  }

  method CutTail(snapshot: seq<byte>) returns (data: seq<byte>)
    ensures data == ReplayTail(snapshot)
  {
    hide AlignStart;
    data := snapshot;
    if |data| > ATTACH_REPLAY_TAIL_BYTES {
      var start := AlignTailStart(data, |data| - ATTACH_REPLAY_TAIL_BYTES);
      data := data[start..];
    }
  }

  /** The connection takes `accepted` writes and fails the next one, if there is one. */
  method ReplayOutput(snapshot: seq<byte>, accepted: nat) returns (sent: seq<seq<byte>>, ok: bool)
    ensures ok <==> |ReplayFrames(snapshot)| <= accepted
    ensures sent == if ok then ReplayFrames(snapshot) else ReplayFrames(snapshot)[..accepted]
  {
    var data := CutTail(snapshot);
    sent, ok := SendChunks(data, accepted);
    assert ReplayFrames(snapshot)[..|ReplayFrames(snapshot)|] == ReplayFrames(snapshot);
  }

  lemma {:induction false} ChunksCover(data: seq<byte>)
    ensures Concat(Chunks(data)) == data
    ensures forall i :: 0 <= i < |Chunks(data)| ==>
              0 < |Chunks(data)[i]| <= 32768 && (i < |Chunks(data)| - 1 ==> |Chunks(data)[i]| == 32768)
    decreases |data|
  {
    if data != [] {
      var n := Min(|data|, REPLAY_CHUNK);
      ChunksCover(data[n..]);
      ConcatAppend([data[..n]], Chunks(data[n..]));
      assert Concat([data[..n]]) == data[..n] by { ConcatSnoc([], data[..n]); }
      assert data == data[..n] + data[n..];
    }
  }

  /** The replayed bytes are a bounded suffix of the snapshot, and a cut lands on a safe boundary:
      on an ESC, or past the last byte, or on a byte that starts a character and has no ESC close before it. */
  lemma ReplayTailIsSafeSuffix(data: seq<byte>)
    ensures ReplayTail(data) == Tail(data, |ReplayTail(data)|)
    ensures |ReplayTail(data)| <= ATTACH_REPLAY_TAIL_BYTES + ESC_REWIND
    ensures |data| <= ATTACH_REPLAY_TAIL_BYTES ==> ReplayTail(data) == data
    ensures |data| > ATTACH_REPLAY_TAIL_BYTES ==>
              var cut := |data| - |ReplayTail(data)|;
              || cut == |data|
              || data[cut] == ESC
              || (&& !IsContinuation(data[cut])
                  && forall i :: Max(0, cut - ESC_REWIND) <= i < cut ==> data[i] != ESC)
  {
    if |data| > ATTACH_REPLAY_TAIL_BYTES {
      var start := |data| - ATTACH_REPLAY_TAIL_BYTES;
      var s := SkipContinuation(data, start);
      assert AlignStart(data, start) >= s - ESC_REWIND;
    }
  }

  lemma {:induction false} SkipIs(b: seq<byte>, start: nat, s: nat)
    requires start <= s <= |b| && (s < |b| ==> !IsContinuation(b[s]))
    requires forall i :: start <= i < s ==> IsContinuation(b[i])
    ensures SkipContinuation(b, start) == s
    decreases s - start
  {
    if start < s {
      SkipIs(b, start + 1, s);
    }
  }

  /** Exactly where a long snapshot is cut. Let `s` be the first position from 256 KiB before the end on that does not
      continue a character, or the end. The cut is at the last ESC of the 1024 bytes before `s`, if there is
      one, and at `s` otherwise. So only continuation bytes are ever missing of the last 256 KiB. */
  lemma CutIsExact(data: seq<byte>, s: nat)
    requires |data| > 262144 && |data| - 262144 <= s <= |data|
    requires forall i :: |data| - 262144 <= i < s ==> 0x80 <= data[i] < 0xc0
    requires s < |data| ==> !(0x80 <= data[s] < 0xc0)
    ensures |ReplayTail(data)| <= |data|
    ensures var cut := |data| - |ReplayTail(data)|;
            && (if exists i :: Max(0, s - 1024) <= i < s && data[i] == 0x1b
                then Max(0, s - 1024) <= cut < s && data[cut] == 0x1b && forall i :: cut < i < s ==> data[i] != 0x1b
                else cut == s)
            && forall i :: |data| - 262144 <= i < cut ==> 0x80 <= data[i] < 0xc0
  {
    SkipIs(data, |data| - 262144, s);
  }

  /** Such a position exists, so the lemma above tells the cut of every long snapshot. */
  lemma CutExists(data: seq<byte>) returns (s: nat)
    requires |data| > 262144
    ensures |data| - 262144 <= s <= |data| && (s < |data| ==> !(0x80 <= data[s] < 0xc0))
    ensures forall i :: |data| - 262144 <= i < s ==> 0x80 <= data[i] < 0xc0
  {
    s := SkipContinuation(data, |data| - 262144);
  }

  /** Every replay frame, sent over a routed connection, reaches the browser whole, and the
      payloads it reads concatenate to the replayed tail. */
  lemma ReplaySurvivesRoute(data: seq<byte>, sid: seq<byte>)
    requires |sid| == ROUTE_SESSION_ID_LEN
    ensures Concat(Chunks(ReplayTail(data))) == ReplayTail(data)
    ensures |ReplayFrames(data)| == |Chunks(ReplayTail(data))|
    ensures forall i :: 0 <= i < |ReplayFrames(data)| ==>
              var f := ReplayFrames(data)[i];
              && |f| > 0
              && RouteFrame(sid, f[0], f[1..]).Ok?
              && BrowserDecode(RouteFrame(sid, f[0], f[1..]).value)
                 == BrowserRouted(sid, Some(0x31), Chunks(ReplayTail(data))[i])
  {
    var cs := Chunks(ReplayTail(data));
    ChunksCover(ReplayTail(data));
    forall i | 0 <= i < |ReplayFrames(data)|
      ensures var f := ReplayFrames(data)[i];
              && |f| > 0
              && RouteFrame(sid, f[0], f[1..]).Ok?
              && BrowserDecode(RouteFrame(sid, f[0], f[1..]).value)
                 == BrowserRouted(sid, Some(0x31), cs[i])
    {
      var f := ReplayFrames(data)[i];
      assert f[1..] == cs[i];
      RouteRoundTrip(sid, OUTPUT, cs[i]);
    }
  }
}

/** Recording frames while a capture runs (GifSampler in internal/capture/gif.go). Times are nanoseconds. */
module GifSampling {
  import opened Common
  import opened GifTimeline

  type Pixels = seq<byte>

  // A duration or a frame limit of zero means no limit.
  datatype Options = Options(fps: int, duration: int, maxFrames: int, optimize: bool)

  /** A recorded screenshot, before quantization. */
  datatype Shot = Shot(pixels: Pixels, at: int)

  datatype Recording = Recording(shots: seq<Shot>, nextAt: Option<int>, end: Option<int>)

  const EMPTY := Recording([], None, None)

  function Period(o: Options): int {
    1_000_000_000 / (if o.fps < 1 then 10 else o.fps)
  }

  function Deadline(o: Options, start: int): Option<int> {
    if o.duration > 0 then Some(start + o.duration) else None
  }

  predicate Over(deadline: Option<int>, now: int) {
    deadline.Some? && now >= deadline.value
  }

  predicate Full(o: Options, r: Recording) {
    o.maxFrames > 0 && |r.shots| >= o.maxFrames
  }

  predicate Repeats(r: Recording, pixels: Pixels) {
    r.shots != [] && r.shots[|r.shots| - 1].pixels == pixels
  }

  function Added(o: Options, r: Recording, now: int, shot: Option<Pixels>): Recording {
    if shot.None? then r
    else
      r.(nextAt := Some(now + Period(o)),
         shots := if o.optimize && Repeats(r, shot.value) then r.shots else r.shots + [Shot(shot.value, now)])
  }

  predicate Skips(o: Options, start: int, r: Recording, now: int) {
    Over(Deadline(o, start), now) || (r.nextAt.Some? && now < r.nextAt.value) || Full(o, r)
  }

  function Sampled(o: Options, start: int, r: Recording, now: int, shot: Option<Pixels>): Recording {
    if Skips(o, start, r, now) then r else Added(o, r, now, shot)
  }

  function Forced(o: Options, start: int, r: Recording, now: int, shot: Option<Pixels>): Recording {
    if shot.None? then r
    else
      var r' := r.(end := Some(now));
      if Over(Deadline(o, start), now) || Full(o, r) then r' else Added(o, r', now, shot)
  }

  function Quantized(shots: seq<Shot>, quantize: Pixels -> Image): (fs: seq<Frame>)
    ensures |fs| == |shots|
  {
    seq(|shots|, i requires 0 <= i < |shots| => Frame(quantize(shots[i].pixels), shots[i].at))
  }

  function StopTime(r: Recording): int {
    if r.end.Some? then r.end.value else if r.shots != [] then r.shots[|r.shots| - 1].at else 0
  }

  class GifSampler {
    const opts: Options
    const start: int
    const quantize: Pixels -> Image
    var frames: seq<Frame>
    var nextAt: Option<int>
    var last: Pixels
    var end: Option<int>
    ghost var shots: seq<Shot>

    ghost predicate Valid()
      reads this
    {
      && frames == Quantized(shots, quantize)
      && (shots != [] ==> last == shots[|shots| - 1].pixels)
    }

    ghost function View(): Recording
      reads this
    {
      Recording(shots, nextAt, end)
    }

    constructor (opts: Options, start: int, quantize: Pixels -> Image)
      ensures Valid() && View() == EMPTY
      ensures this.opts == opts && this.start == start && this.quantize == quantize
    {
      this.opts, this.start, this.quantize := opts, start, quantize;
      frames, nextAt, last, end, shots := [], None, [], None, [];
    }

    method AddLocked(now: int, shot: Option<Pixels>) returns (added: bool)
      requires Valid()
      modifies this
      ensures Valid() && View() == Added(opts, old(View()), now, shot)
      ensures added <==> |frames| > |old(frames)|
    {
      if shot.None? {
        return false;
      }
      if opts.optimize && |frames| > 0 && last == shot.value {
        nextAt := Some(now + Period(opts));
        return false;
      }
      frames := frames + [Frame(quantize(shot.value), now)];
      shots := shots + [Shot(shot.value, now)];
      last := shot.value;
      nextAt := Some(now + Period(opts));
      added := true;
    }

    method TrySample(now: int, shot: Option<Pixels>) returns (added: bool)
      requires Valid()
      modifies this
      ensures Valid() && View() == Sampled(opts, start, old(View()), now, shot)
      ensures added <==> |frames| > |old(frames)|
    {
      if Over(Deadline(opts, start), now) {
        return false;
      }
      if nextAt.Some? && now < nextAt.value {
        return false;
      }
      if opts.maxFrames > 0 && |frames| >= opts.maxFrames {
        return false;
      }
      added := AddLocked(now, shot);
    }

    method Force(now: int, shot: Option<Pixels>)
      requires Valid()
      modifies this
      ensures Valid() && View() == Forced(opts, start, old(View()), now, shot)
    {
      if shot.None? {
        return;
      }
      end := Some(now);
      if Over(Deadline(opts, start), now) || (opts.maxFrames > 0 && |frames| >= opts.maxFrames) {
        return;
      }
      var _ := AddLocked(now, shot);
    }

    method Snapshot() returns (fs: seq<Frame>, stopAt: int)
      requires Valid()
      ensures fs == Quantized(View().shots, quantize) && stopAt == StopTime(View())
    {
      fs := frames;
      stopAt := if end.Some? then end.value else if |frames| > 0 then frames[|frames| - 1].at else 0;
    }
  }

  // ---------------------------------------------------------------------------
  // Whole recordings

  datatype Sample = Sample(now: int, shot: Option<Pixels>)

  function SampledAll(o: Options, start: int, samples: seq<Sample>): Recording {
    if samples == [] then EMPTY
    else
      var last := samples[|samples| - 1];
      Sampled(o, start, SampledAll(o, start, samples[..|samples| - 1]), last.now, last.shot)
  }

  predicate ClockRuns(samples: seq<Sample>, stop: int) {
    && (forall i, j :: 0 <= i < j < |samples| ==> samples[i].now <= samples[j].now)
    && (forall i :: 0 <= i < |samples| ==> samples[i].now <= stop)
  }

  /** What the sampler keeps: the shots stand at least a period apart, in time order and before the deadline,
      no more than the frame limit of them, and with optimization no shot repeats the one before it. */
  ghost predicate Paced(o: Options, start: int, r: Recording, now: int) {
    && (o.maxFrames > 0 ==> |r.shots| <= o.maxFrames)
    && (forall i :: 0 <= i < |r.shots| ==> r.shots[i].at <= now && !Over(Deadline(o, start), r.shots[i].at))
    && (forall i, j :: 0 <= i < j < |r.shots| ==> r.shots[i].at + Period(o) <= r.shots[j].at)
    && (o.optimize ==> forall i, j :: 0 <= i && j == i + 1 < |r.shots| ==> r.shots[i].pixels != r.shots[j].pixels)
    && (r.shots != [] ==> r.nextAt.Some? && r.shots[|r.shots| - 1].at + Period(o) <= r.nextAt.value)
    && r.end.None?
  }

  lemma PeriodPositive(o: Options)
    ensures Period(o) >= 0
  {
  }

  lemma ShotPaced(o: Options, start: int, r: Recording, now: int, pixels: Pixels)
    requires Paced(o, start, r, now) && !Skips(o, start, r, now) && !(o.optimize && Repeats(r, pixels))
    ensures Paced(o, start, r.(shots := r.shots + [Shot(pixels, now)], nextAt := Some(now + Period(o))), now)
  {
    PeriodPositive(o);
    hide Period, Deadline;
    if r.shots != [] {
      var n := |r.shots| - 1;
      assert forall i :: 0 <= i < n ==> r.shots[i].at + Period(o) <= r.shots[n].at;
    }
  }

  lemma RepeatPaced(o: Options, start: int, r: Recording, now: int)
    requires Paced(o, start, r, now)
    ensures Paced(o, start, r.(nextAt := Some(now + Period(o))), now)
  {
    hide Period, Deadline;
  }

  lemma SamplePaced(o: Options, start: int, r: Recording, before: int, s: Sample)
    requires Paced(o, start, r, before) && before <= s.now
    ensures Paced(o, start, Sampled(o, start, r, s.now, s.shot), s.now)
  {
    PacedLater(o, start, r, before, s.now);
    hide Paced, Period, Skips;
    if !Skips(o, start, r, s.now) && s.shot.Some? {
      if o.optimize && Repeats(r, s.shot.value) {
        RepeatPaced(o, start, r, s.now);
      } else {
        ShotPaced(o, start, r, s.now, s.shot.value);
      }
    }
  }

  lemma {:induction false} SamplesArePaced(o: Options, start: int, samples: seq<Sample>, now: int)
    requires ClockRuns(samples, now)
    ensures Paced(o, start, SampledAll(o, start, samples), now)
  {
    if samples != [] {
      var n := |samples| - 1;
      SamplesArePaced(o, start, samples[..n], samples[n].now);
      SamplePaced(o, start, SampledAll(o, start, samples[..n]), samples[n].now, samples[n]);
      PacedLater(o, start, SampledAll(o, start, samples), samples[n].now, now);
    }
  }

  lemma PacedLater(o: Options, start: int, r: Recording, now: int, later: int)
    requires Paced(o, start, r, now) && now <= later
    ensures Paced(o, start, r, later)
  {
  }

  /** The closing shot may come sooner than a period later, and it fixes the stop time even when it is not
      kept; so the frames handed to the encoder are in time order and none is after the stop time. */
  lemma RecordingIsSorted(o: Options, start: int, samples: seq<Sample>, stop: int, shot: Option<Pixels>, quantize: Pixels -> Image)
    requires ClockRuns(samples, stop)
    ensures var r := Forced(o, start, SampledAll(o, start, samples), stop, shot);
            && (o.maxFrames > 0 ==> |r.shots| <= o.maxFrames)
            && (shot.Some? ==> StopTime(r) == stop)
            && Sorted(Quantized(r.shots, quantize), StopTime(r))
  {
    hide Paced, InOrder, Forced, StopTime;
    SamplesArePaced(o, start, samples, stop);
    var r := SampledAll(o, start, samples);
    PacedInOrder(o, start, r, stop);
    ForcedInOrder(o, start, r, stop, shot);
    InOrderSorted(Forced(o, start, r, stop, shot), quantize);
  }

  predicate InOrder(shots: seq<Shot>, stop: int) {
    && (forall i, j :: 0 <= i < j < |shots| ==> shots[i].at <= shots[j].at)
    && (forall i :: 0 <= i < |shots| ==> shots[i].at <= stop)
  }

  lemma PacedInOrder(o: Options, start: int, r: Recording, now: int)
    requires Paced(o, start, r, now)
    ensures InOrder(r.shots, now) && r.end.None? && (o.maxFrames > 0 ==> |r.shots| <= o.maxFrames)
  {
    PeriodPositive(o);
  }

  lemma ForcedInOrder(o: Options, start: int, r: Recording, stop: int, shot: Option<Pixels>)
    requires InOrder(r.shots, stop) && r.end.None? && (o.maxFrames > 0 ==> |r.shots| <= o.maxFrames)
    ensures var r' := Forced(o, start, r, stop, shot);
            && InOrder(r'.shots, StopTime(r'))
            && (o.maxFrames > 0 ==> |r'.shots| <= o.maxFrames)
            && (shot.Some? ==> StopTime(r') == stop)
  {
    hide Period;
  }

  lemma InOrderSorted(r: Recording, quantize: Pixels -> Image)
    requires InOrder(r.shots, StopTime(r))
    ensures Sorted(Quantized(r.shots, quantize), StopTime(r))
  {
  }

  /** A recording that was stopped with a closing shot plays, before rounding, for exactly the time from its
      first frame to the stop, whether or not the encoder merges equal frames. */
  lemma RecordingPlaysToTheStop(o: Options, start: int, samples: seq<Sample>, stop: int, shot: Pixels, quantize: Pixels -> Image)
    requires ClockRuns(samples, stop)
    ensures var fs := Quantized(Forced(o, start, SampledAll(o, start, samples), stop, Some(shot)).shots, quantize);
            fs != [] ==> Sum(Spans(fs, stop)) == stop - fs[0].at == Sum(Spans(Merged(fs), stop))
  {
    RecordingIsSorted(o, start, samples, stop, Some(shot), quantize);
    var fs := Quantized(Forced(o, start, SampledAll(o, start, samples), stop, Some(shot)).shots, quantize);
    if fs != [] {
      SpansCoverRecording(fs, stop);
    }
  }

  /** A sample is taken if the recording's time is not over, a period has passed since the last one taken, and the
      frame limit is not reached; then it is on show: it was recorded, or it equals the last frame. Any
      other sample changes nothing. */
  lemma SampleIsOnShow(o: Options, start: int, r: Recording, now: int, pixels: Pixels)
    ensures var r' := Sampled(o, start, r, now, Some(pixels));
            if (o.duration > 0 ==> now < start + o.duration) && (r.nextAt.Some? ==> now >= r.nextAt.value)
               && (o.maxFrames > 0 ==> |r.shots| < o.maxFrames)
            then OnShow(o, r, r', now, pixels) && r'.end == r.end
            else r' == r
  {
  }

  /** The last shot shows `pixels`; it is a new one, unless equal shots are left out and the last one was equal. */
  predicate OnShow(o: Options, r: Recording, r': Recording, now: int, pixels: Pixels) {
    var repeated := o.optimize && r.shots != [] && r.shots[|r.shots| - 1].pixels == pixels;
    && r'.shots == (if repeated then r.shots else r.shots + [Shot(pixels, now)])
    && r'.nextAt == Some(now + Period(o))
  }

  /** The closing shot sets the stop time, and is on show too if the recording's time is not over and the frame
      limit is not reached, however soon it comes. Without one nothing changes. */
  lemma ClosingShotIsOnShow(o: Options, start: int, r: Recording, now: int, pixels: Pixels)
    ensures var r' := Forced(o, start, r, now, Some(pixels));
            && r'.end == Some(now)
            && (if (o.duration > 0 ==> now < start + o.duration) && (o.maxFrames > 0 ==> |r.shots| < o.maxFrames)
                then OnShow(o, r, r', now, pixels)
                else r'.shots == r.shots)
    ensures Forced(o, start, r, now, None) == r && Sampled(o, start, r, now, None) == r
  {
  }

  /** The period is the whole number of nanoseconds that goes as often as frames are asked for into a second; 10
      frames are taken if none are asked for. */
  lemma PeriodIs(o: Options)
    ensures var fps := if o.fps < 1 then 10 else o.fps;
            Period(o) * fps <= 1_000_000_000 < Period(o) * fps + fps
  {
  }
}

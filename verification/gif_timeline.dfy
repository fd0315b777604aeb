/** Merging and timing of recorded frames (internal/capture/gif.go). */
module GifTimeline {
  import opened Common

  type Color = nat

  datatype Paletted = Paletted(pix: seq<nat>, palette: seq<Color>)

  /** A frame as the quantizer makes it: every index names a palette entry. */
  type Image = img: Paletted | IsImage(img) witness Paletted([], [0])

  predicate IsImage(img: Paletted) {
    img.palette != [] && forall i :: 0 <= i < |img.pix| ==> img.pix[i] < |img.palette|
  }

  /** `at` is the sampling time in nanoseconds. */
  datatype Frame = Frame(image: Image, at: int)

  datatype Animation = Animation(images: seq<Image>, delays: seq<int>)

  datatype GifError = ErrGifEmpty | ErrGifStatic

  /** Milliseconds in nanoseconds. */
  function Ms(n: int): int {
    n * 1_000_000
  }

  /** What the image shows. */
  function Colors(img: Image): (cs: seq<Color>)
    ensures |cs| == |img.pix|
  {
    seq(|img.pix|, i requires 0 <= i < |img.pix| => img.palette[img.pix[i]])
  }

  method PalettedFrameEqual(a: Image, b: Image) returns (same: bool)
    ensures same <==> Colors(a) == Colors(b)
  {
    if |a.pix| != |b.pix| || |a.palette| == 0 || |b.palette| == 0 {
      return false;
    }
    for i := 0 to |a.pix|
      invariant Colors(a)[..i] == Colors(b)[..i]
    {
      var ca := a.palette[a.pix[i]];
      if |b.palette| <= b.pix[i] || ca != b.palette[b.pix[i]] {
        assert Colors(a)[i] != Colors(b)[i];
        return false;
      }
    }
    assert Colors(a)[..|a.pix|] == Colors(a) && Colors(b)[..|a.pix|] == Colors(b);
    return true;
  }

  /** A frame is kept unless it shows what the last kept one shows. */
  function MergeOne(out: seq<Frame>, f: Frame): seq<Frame> {
    if out != [] && Colors(out[|out| - 1].image) == Colors(f.image) then out else out + [f]
  }

  /** The frames that survive merging. */
  function Merged(fs: seq<Frame>): (out: seq<Frame>)
    ensures |out| <= |fs|
  {
    if fs == [] then [] else MergeOne(Merged(fs[..|fs| - 1]), fs[|fs| - 1])
  }

  lemma MergedNone()
    ensures Merged([]) == []
  {
  }

  lemma MergedSnoc(fs: seq<Frame>, f: Frame)
    ensures Merged(fs + [f]) == MergeOne(Merged(fs), f)
  {
    hide MergeOne;
    assert (fs + [f])[..|fs|] == fs;
  }

  /** The merge writes the kept frames over the front of the array it is reading. */
  method Compact(frames: array<Frame>) returns (n: nat)
    modifies frames
    ensures n <= frames.Length && frames[..n] == Merged(old(frames[..]))
  {
    hide Merged, Colors;
    n := 0;
    ghost var was := frames[..];
    MergedNone();
    for i := 0 to frames.Length
      invariant n <= i
      invariant frames[..n] == Merged(was[..i])
      invariant forall j :: i <= j < frames.Length ==> frames[j] == was[j]
    {
      var f := frames[i];
      assert was[..i + 1] == was[..i] + [f];
      MergedSnoc(was[..i], f);
      ghost var out := Merged(was[..i]);
      if n > 0 {
        assert frames[n - 1] == frames[..n][n - 1] == out[n - 1];
        var same := PalettedFrameEqual(frames[n - 1].image, f.image);
        if same {
          continue;
        }
      }
      frames[n] := f;
      n := n + 1;
      assert frames[..n] == out + [f];
    }
    assert was[..frames.Length] == was;
  }

  // ---------------------------------------------------------------------------
  // Delays

  /** How long frame `i` stands, in nanoseconds. */
  function Span(fs: seq<Frame>, stopAt: int, i: nat): (d: int)
    requires i < |fs|
    ensures d >= 0
  {
    Max(0, (if i == |fs| - 1 then stopAt else fs[i + 1].at) - fs[i].at)
  }

  /** Nanoseconds to the file's hundredths of a second. */
  function Centiseconds(d: int): int
    requires d >= 0
  {
    Max(1, (d / 1_000_000 + 5) / 10)
  }

  function Delays(fs: seq<Frame>, stopAt: int): (ds: seq<int>)
    ensures |ds| == |fs|
  {
    seq(|fs|, i requires 0 <= i < |fs| => Centiseconds(Span(fs, stopAt, i)))
  }

  function Images(fs: seq<Frame>): seq<Image> {
    seq(|fs|, i requires 0 <= i < |fs| => fs[i].image)
  }

  function Encoded(fs: seq<Frame>, stopAt: int, optimize: bool): Result<Animation, GifError>
  {
    var kept := if optimize then Merged(fs) else fs;
    if fs == [] then Err(ErrGifEmpty)
    else if |kept| <= 1 then Err(ErrGifStatic)
    else Ok(Animation(Images(kept), Delays(kept, stopAt)))
  }

  method EncodeGIF(frames: array<Frame>, stopAt: int, optimize: bool) returns (r: Result<Animation, GifError>)
    modifies frames
    ensures r == Encoded(old(frames[..]), stopAt, optimize)
    ensures !optimize ==> frames[..] == old(frames[..])
  {
    hide Merged;
    if frames.Length == 0 {
      return Err(ErrGifEmpty);
    }
    var n := frames.Length;
    if optimize {
      n := Compact(frames);
    }
    var kept := frames[..n];
    assert kept == if optimize then Merged(old(frames[..])) else old(frames[..]);
    if n <= 1 {
      return Err(ErrGifStatic);
    }
    var images, delays := [], [];
    for i := 0 to n
      invariant images == Images(kept)[..i] && delays == Delays(kept, stopAt)[..i]
      invariant !optimize ==> frames[..] == old(frames[..])
    {
      images := images + [kept[i].image];
      var d := (if i == n - 1 then stopAt else kept[i + 1].at) - kept[i].at;
      if d < 0 {
        d := 0;
      }
      var cs := (d / 1_000_000 + 5) / 10;
      if cs < 1 {
        cs := 1;
      }
      assert cs == Centiseconds(Span(kept, stopAt, i));
      assert Images(kept)[..i + 1] == Images(kept)[..i] + [kept[i].image];
      assert Delays(kept, stopAt)[..i + 1] == Delays(kept, stopAt)[..i] + [cs];
      delays := delays + [cs];
    }
    assert images == Images(kept) && delays == Delays(kept, stopAt);
    r := Ok(Animation(images, delays));
  }

  // ---------------------------------------------------------------------------
  // What merging keeps

  /** All frames from position `i` up to `j` show what frame `i` shows. */
  predicate Stands(fs: seq<Frame>, i: nat, j: nat)
  {
    i < j <= |fs| && forall k :: i <= k < j ==> Colors(fs[k].image) == Colors(fs[i].image)
  }

  /** Where the part of the recording that kept frame `k` stands for ends. */
  function End(ix: seq<nat>, k: nat, n: nat): nat {
    if k + 1 < |ix| then ix[k + 1] else n
  }

  /** Kept frame `k` is frame `ix[k]`, it shows what every frame up to the next kept one shows, and the
      next kept one shows something else. */
  predicate StandsFor(fs: seq<Frame>, out: seq<Frame>, ix: seq<nat>, k: nat)
    requires k < |out| == |ix|
  {
    && Stands(fs, ix[k], End(ix, k, |fs|)) && out[k] == fs[ix[k]]
    && (k + 1 < |out| ==> Colors(out[k].image) != Colors(out[k + 1].image))
  }

  /** `ix` lists the positions of the kept frames, the first frame's among them. */
  ghost predicate Keeps(fs: seq<Frame>, out: seq<Frame>, ix: seq<nat>) {
    && |ix| == |out|
    && (ix == [] <==> fs == []) && (ix != [] ==> ix[0] == 0)
    && forall k :: 0 <= k < |out| ==> StandsFor(fs, out, ix, k)
  }

  lemma StandsLonger(fs: seq<Frame>, f: Frame, i: nat, j: nat)
    requires Stands(fs, i, j)
    ensures Stands(fs + [f], i, j)
    ensures j == |fs| && Colors(f.image) == Colors(fs[i].image) ==> Stands(fs + [f], i, j + 1)
  {
  }

  lemma StandsAlone(fs: seq<Frame>, i: nat)
    requires i < |fs|
    ensures Stands(fs, i, i + 1)
  {
  }

  lemma KeepsDropped(fs: seq<Frame>, f: Frame, out: seq<Frame>, ix: seq<nat>)
    requires Keeps(fs, out, ix)
    requires out != [] && Colors(out[|out| - 1].image) == Colors(f.image)
    ensures Keeps(fs + [f], out, ix)
  {
    hide Colors, Stands;
    forall k | 0 <= k < |out|
      ensures StandsFor(fs + [f], out, ix, k)
    {
      KeptAt(fs, out, ix, k);
      StandsLonger(fs, f, ix[k], End(ix, k, |fs|));
    }
  }

  lemma KeepsAppended(fs: seq<Frame>, f: Frame, out: seq<Frame>, ix: seq<nat>)
    requires Keeps(fs, out, ix)
    requires fs != [] ==> Colors(out[|out| - 1].image) != Colors(f.image)
    ensures Keeps(fs + [f], out + [f], ix + [|fs|])
  {
    hide Colors, Stands;
    forall k | 0 <= k < |out| + 1
      ensures StandsFor(fs + [f], out + [f], ix + [|fs|], k)
    {
      if k < |ix| {
        KeptAt(fs, out, ix, k);
        StandsLonger(fs, f, ix[k], End(ix, k, |fs|));
      } else {
        StandsAlone(fs + [f], |fs|);
      }
    }
  }

  lemma KeptAt(fs: seq<Frame>, out: seq<Frame>, ix: seq<nat>, k: nat)
    requires Keeps(fs, out, ix) && k < |out|
    ensures |ix| == |out| && ix[k] < End(ix, k, |fs|) <= |fs| && StandsFor(fs, out, ix, k)
    ensures End(ix, k, |fs|) == |fs| ==> k == |out| - 1
  {
    assert StandsFor(fs, out, ix, k);
    if k + 1 < |out| {
      assert StandsFor(fs, out, ix, k + 1);
    }
  }

  lemma KeepsSnoc(fs: seq<Frame>, f: Frame, ix: seq<nat>) returns (ix': seq<nat>)
    requires Keeps(fs, Merged(fs), ix)
    ensures Keeps(fs + [f], Merged(fs + [f]), ix')
  {
    hide Colors, Keeps, Merged;
    MergedSnoc(fs, f);
    var out := Merged(fs);
    KeptNotEmpty(fs, out, ix);
    if out != [] && Colors(out[|out| - 1].image) == Colors(f.image) {
      KeepsDropped(fs, f, out, ix);
      ix' := ix;
    } else {
      KeepsAppended(fs, f, out, ix);
      ix' := ix + [|fs|];
    }
  }

  /** Merging keeps a subsequence in which neighbours differ, and what it drops was already on show. */
  lemma {:induction false} MergedKeeps(fs: seq<Frame>) returns (ix: seq<nat>)
    ensures Keeps(fs, Merged(fs), ix)
    decreases |fs|
  {
    if fs == [] {
      ix := [];
    } else {
      hide Keeps, Merged;
      var init, f := fs[..|fs| - 1], fs[|fs| - 1];
      assert fs == init + [f];
      ix := MergedKeeps(init);
      ix := KeepsSnoc(init, f, ix);
    }
  }

  lemma KeptNotEmpty(fs: seq<Frame>, out: seq<Frame>, ix: seq<nat>)
    requires Keeps(fs, out, ix)
    ensures fs != [] <==> out != []
  {
  }

  /** Merging a merged recording changes nothing. */
  lemma {:induction false} MergedTwice(fs: seq<Frame>)
    ensures Merged(Merged(fs)) == Merged(fs)
    decreases |fs|
  {
    if fs != [] {
      var init := fs[..|fs| - 1];
      MergedTwice(init);
      if Merged(fs) != Merged(init) {
        assert Merged(fs)[..|Merged(fs)| - 1] == Merged(init);
      }
    }
  }

  // ---------------------------------------------------------------------------
  // What the delays add up to

  function Sum(s: seq<int>): int {
    if s == [] then 0 else Sum(s[..|s| - 1]) + s[|s| - 1]
  }

  function Spans(fs: seq<Frame>, stopAt: int): (s: seq<int>)
    ensures |s| == |fs| && forall i :: 0 <= i < |s| ==> s[i] == Span(fs, stopAt, i) >= 0
  {
    seq(|fs|, i requires 0 <= i < |fs| => Span(fs, stopAt, i))
  }

  predicate Sorted(fs: seq<Frame>, stopAt: int) {
    && (forall i, j :: 0 <= i < j < |fs| ==> fs[i].at <= fs[j].at)
    && (forall i :: 0 <= i < |fs| ==> fs[i].at <= stopAt)
  }

  lemma {:induction false} SpansTelescope(fs: seq<Frame>, stopAt: int, n: nat)
    requires Sorted(fs, stopAt) && 0 < n <= |fs|
    ensures Sum(Spans(fs, stopAt)[..n]) == (if n == |fs| then stopAt else fs[n].at) - fs[0].at
  {
    var s := Spans(fs, stopAt)[..n];
    assert s[..n - 1] == Spans(fs, stopAt)[..n - 1];
    assert s[n - 1] == Span(fs, stopAt, n - 1);
    if n > 1 {
      SpansTelescope(fs, stopAt, n - 1);
    }
  }

  lemma {:induction false} Increasing(fs: seq<Frame>, out: seq<Frame>, ix: seq<nat>, i: nat, j: nat)
    requires Keeps(fs, out, ix) && i < j < |ix|
    ensures ix[i] < ix[j] < |fs|
    decreases j
  {
    KeptAt(fs, out, ix, j - 1);
    KeptAt(fs, out, ix, j);
    if i + 1 < j {
      Increasing(fs, out, ix, i, j - 1);
    }
  }

  lemma KeptFirst(fs: seq<Frame>, out: seq<Frame>, ix: seq<nat>)
    requires Keeps(fs, out, ix) && fs != []
    ensures out != [] && out[0] == fs[0]
  {
    assert StandsFor(fs, out, ix, 0);
  }

  lemma MergedSorted(fs: seq<Frame>, stopAt: int) returns (ix: seq<nat>)
    requires fs != [] && Sorted(fs, stopAt)
    ensures Keeps(fs, Merged(fs), ix)
    ensures Merged(fs) != [] && Merged(fs)[0] == fs[0] && Sorted(Merged(fs), stopAt)
  {
    hide Keeps, Stands, Colors, Merged;
    ix := MergedKeeps(fs);
    var out := Merged(fs);
    forall i, j | 0 <= i < j < |out|
      ensures out[i].at <= out[j].at
    {
      KeptAt(fs, out, ix, i);
      KeptAt(fs, out, ix, j);
      Increasing(fs, out, ix, i, j);
    }
    forall i | 0 <= i < |out|
      ensures out[i].at <= stopAt
    {
      KeptAt(fs, out, ix, i);
    }
    KeptFirst(fs, out, ix);
  }

  /** With or without merging, the spans of the frames add up to the recording's length. */
  lemma SpansCoverRecording(fs: seq<Frame>, stopAt: int)
    requires fs != [] && Sorted(fs, stopAt)
    ensures Sum(Spans(fs, stopAt)) == stopAt - fs[0].at
    ensures Sum(Spans(Merged(fs), stopAt)) == stopAt - fs[0].at
  {
    hide Merged, Keeps, Sorted, Sum, Spans;
    SpansTelescope(fs, stopAt, |fs|);
    assert Spans(fs, stopAt)[..|fs|] == Spans(fs, stopAt);
    var ix := MergedSorted(fs, stopAt);
    var out := Merged(fs);
    SpansTelescope(out, stopAt, |out|);
    assert Spans(out, stopAt)[..|out|] == Spans(out, stopAt);
  }

  predicate WholeTen(d: int) {
    d > 0 && d % 10_000_000 == 0
  }

  predicate AllWholeTen(fs: seq<Frame>, stopAt: int) {
    forall i :: 0 <= i < |fs| ==> WholeTen(Span(fs, stopAt, i))
  }

  /** Rounding one delay is off by less than 5 ms downwards and by at most 10 ms upwards (5 ms from 5 ms on). */
  lemma CentisecondsClose(d: int)
    requires d >= 0
    ensures -Ms(5) < Ms(10 * Centiseconds(d)) - d <= Ms(10)
    ensures d >= Ms(5) ==> Ms(10 * Centiseconds(d)) - d <= Ms(5)
  {
    var m := d / 1_000_000;
    assert 1_000_000 * m <= d < 1_000_000 * m + 1_000_000;
    var q := (m + 5) / 10;
    assert 10 * q <= m + 5 < 10 * q + 10;
  }

  /** Rounding one delay is exact just for positive multiples of 10 ms. */
  lemma CentisecondsExactIff(d: int)
    requires d >= 0
    ensures Ms(10 * Centiseconds(d)) == d <==> WholeTen(d)
  {
    var c, q := Centiseconds(d), d / 10_000_000;
    assert Ms(10 * c) == 10_000_000 * c;
    if WholeTen(d) {
      assert d == 10_000_000 * q;
      assert d / 1_000_000 == 10 * q;
      assert (10 * q + 5) / 10 == q;
    }
  }

  lemma {:induction false} RoundedSumClose(fs: seq<Frame>, stopAt: int, n: nat)
    requires n <= |fs|
    ensures -Ms(5 * n) <= Ms(10 * Sum(Delays(fs, stopAt)[..n])) - Sum(Spans(fs, stopAt)[..n]) <= Ms(10 * n)
    ensures AllWholeTen(fs, stopAt) ==> Ms(10 * Sum(Delays(fs, stopAt)[..n])) == Sum(Spans(fs, stopAt)[..n])
  {
    if n > 0 {
      hide Centiseconds, WholeTen, Span;
      RoundedSumClose(fs, stopAt, n - 1);
      var ds, ss := Delays(fs, stopAt), Spans(fs, stopAt);
      assert ds[..n][..n - 1] == ds[..n - 1] && ss[..n][..n - 1] == ss[..n - 1];
      CentisecondsClose(Span(fs, stopAt, n - 1));
      CentisecondsExactIff(Span(fs, stopAt, n - 1));
    }
  }

  /** Spans of merged frames are sums of the spans they cover. */
  lemma {:induction false} SpanMultiple(fs: seq<Frame>, stopAt: int, i: nat, j: nat)
    requires Sorted(fs, stopAt) && i < j <= |fs| && AllWholeTen(fs, stopAt)
    ensures WholeTen((if j == |fs| then stopAt else fs[j].at) - fs[i].at)
  {
    assert WholeTen(Span(fs, stopAt, j - 1));
    if i + 1 < j {
      SpanMultiple(fs, stopAt, i, j - 1);
    }
  }

  lemma MergedWholeTen(fs: seq<Frame>, stopAt: int)
    requires fs != [] && Sorted(fs, stopAt) && AllWholeTen(fs, stopAt)
    ensures AllWholeTen(Merged(fs), stopAt)
  {
    hide Stands, Colors, Merged, AllWholeTen, WholeTen, Sorted, Keeps;
    var out := Merged(fs);
    var ix := MergedSorted(fs, stopAt);
    forall i | 0 <= i < |out|
      ensures WholeTen(Span(out, stopAt, i))
    {
      SpanOfMerged(fs, stopAt, out, ix, i);
    }
    WholeTenByIndex(out, stopAt);
  }

  lemma WholeTenByIndex(fs: seq<Frame>, stopAt: int)
    requires forall i :: 0 <= i < |fs| ==> WholeTen(Span(fs, stopAt, i))
    ensures AllWholeTen(fs, stopAt)
  {
  }

  lemma SpanOfMerged(fs: seq<Frame>, stopAt: int, out: seq<Frame>, ix: seq<nat>, i: nat)
    requires Keeps(fs, out, ix) && i < |out|
    requires Sorted(fs, stopAt) && AllWholeTen(fs, stopAt)
    ensures WholeTen(Span(out, stopAt, i))
  {
    hide Keeps, WholeTen, AllWholeTen, Colors;
    KeptAt(fs, out, ix, i);
    var j := End(ix, i, |fs|);
    SpanMultiple(fs, stopAt, ix[i], j);
    if i + 1 < |out| {
      KeptAt(fs, out, ix, i + 1);
    }
    WholeTenPositive((if j == |fs| then stopAt else fs[j].at) - fs[ix[i]].at);
  }

  lemma WholeTenPositive(d: int)
    requires WholeTen(d)
    ensures Max(0, d) == d
  {
  }

  /** The playing time of the file is within 5 ms per frame below, and 10 ms per frame above, the recording's
      length, and it is exact when every span is a positive multiple of 10 ms. */
  lemma PlayingTime(fs: seq<Frame>, stopAt: int, optimize: bool)
    requires fs != [] && Sorted(fs, stopAt) && Encoded(fs, stopAt, optimize).Ok?
    ensures var delays, length := Encoded(fs, stopAt, optimize).value.delays, stopAt - fs[0].at;
            && -Ms(5 * |delays|) <= Ms(10 * Sum(delays)) - length <= Ms(10 * |delays|)
            && (AllWholeTen(fs, stopAt) ==> Ms(10 * Sum(delays)) == length)
  {
    var kept := if optimize then Merged(fs) else fs;
    hide Merged, Sorted, AllWholeTen, Span, Sum;
    SpansCoverRecording(fs, stopAt);
    RoundedSumClose(kept, stopAt, |kept|);
    assert Delays(kept, stopAt)[..|kept|] == Delays(kept, stopAt);
    assert Spans(kept, stopAt)[..|kept|] == Spans(kept, stopAt);
    if optimize && AllWholeTen(fs, stopAt) {
      MergedWholeTen(fs, stopAt);
    }
  }

  /** The comment above the encoder says that merging leaves the total unchanged. That is so for the spans
      but not for the rounded delays: two frames 4 ms apart count 10 ms each. */
  lemma MergingCanChangePlayingTime()
    ensures var a, b := Paletted([0], [0]), Paletted([0], [1]);
            var fs := [Frame(a, 0), Frame(a, Ms(4)), Frame(b, Ms(8))];
            Sorted(fs, Ms(20))
            && Encoded(fs, Ms(20), false).Ok? && Encoded(fs, Ms(20), true).Ok?
            && Sum(Encoded(fs, Ms(20), false).value.delays) == 3
            && Sum(Encoded(fs, Ms(20), true).value.delays) == 2
  {
    var a, b := Paletted([0], [0]), Paletted([0], [1]);
    var fs := [Frame(a, 0), Frame(a, Ms(4)), Frame(b, Ms(8))];
    assert Colors(a)[0] != Colors(b)[0];
    hide Merged, Colors, Delays, Sum;
    MergedExample(fs[0], fs[1], fs[2]);
    ExampleTotals(fs[0], fs[1], fs[2]);
  }

  lemma ExampleTotals(f: Frame, g: Frame, h: Frame)
    requires f.at == 0 && g.at == Ms(4) && h.at == Ms(8)
    ensures Sum(Delays([f, g, h], Ms(20))) == 3 && Sum(Delays([f, h], Ms(20))) == 2
  {
    assert Delays([f, g, h], Ms(20)) == [1, 1, 1];
    assert Delays([f, h], Ms(20)) == [1, 1];
    hide Delays;
    assert [1, 1, 1][..2] == [1, 1] && [1, 1][..1] == [1] && [1][..0] == [];
  }

  lemma MergedExample(f: Frame, g: Frame, h: Frame)
    requires f.image == g.image && |f.image.pix| == |h.image.pix| == 1
    requires Colors(f.image)[0] != Colors(h.image)[0]
    ensures Merged([f, g, h]) == [f, h]
  {
    var fs := [f, g, h];
    assert fs[..2] == [f, g] && [f, g][..1] == [f] && [f][..0] == [];
    assert Merged([f]) == [f];
    assert Merged([f, g]) == [f];
  }

  // ---------------------------------------------------------------------------
  // The file

  /** A recording without frames is refused as empty; one of a single frame, or, when frames are merged, of a single
      picture, as static; and any other is encoded. */
  lemma RefusedIff(fs: seq<Frame>, stopAt: int, optimize: bool)
    ensures Encoded(fs, stopAt, optimize) == Err(ErrGifEmpty) <==> fs == []
    ensures Encoded(fs, stopAt, optimize) == Err(ErrGifStatic)
            <==> fs != [] && if optimize then forall i :: 0 <= i < |fs| ==> Colors(fs[i].image) == Colors(fs[0].image)
                             else |fs| == 1
  {
    if fs != [] && optimize {
      hide Merged, Colors, Keeps, Stands;
      var ix := MergedKeeps(fs);
      var out := Merged(fs);
      KeptFirst(fs, out, ix);
      SinglePicture(fs, out, ix);
    }
  }

  lemma SinglePicture(fs: seq<Frame>, out: seq<Frame>, ix: seq<nat>)
    requires fs != [] && Keeps(fs, out, ix) && out != []
    ensures |out| == 1 <==> forall i :: 0 <= i < |fs| ==> Colors(fs[i].image) == Colors(fs[0].image)
  {
    hide Colors;
    KeptAt(fs, out, ix, 0);
    if |out| > 1 {
      KeptAt(fs, out, ix, 1);
      assert out[0] == fs[ix[0]] && out[1] == fs[ix[1]];
    }
  }

  /** The file's pictures are those of the kept frames, in order. Each stands for the hundredths of a second that
      its frame stood, to the nearest, but at least one. */
  lemma EncodedIs(fs: seq<Frame>, stopAt: int, optimize: bool)
    requires Encoded(fs, stopAt, optimize).Ok?
    ensures var (kept, a) := (if optimize then Merged(fs) else fs, Encoded(fs, stopAt, optimize).value);
            && |a.images| == |a.delays| == |kept|
            && forall k :: 0 <= k < |kept| ==>
                 var next := if k + 1 < |kept| then kept[k + 1].at else stopAt;
                 var ms := if next < kept[k].at then 0 else (next - kept[k].at) / 1_000_000;
                 a.images[k] == kept[k].image && a.delays[k] == if ms < 5 then 1 else (ms + 5) / 10
  {
    hide Merged;
  }
}

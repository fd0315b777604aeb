/** What a recording shows: the sampler's shots, quantized and merged (internal/capture/gif.go). */
module GifRecording {
  import opened Common
  import Quantize
  import opened GifTimeline
  import opened GifSampling

  /** The most colours a frame can have. */
  const MAX_COLORS := 256

  /** An image as the quantizer makes it of a screenshot, with the palette from some listing of its colours. */
  predicate QuantizedBy(pixels: Pixels, order: seq<Quantize.Key>, img: Image) {
    var keys := Quantize.Keys(pixels);
    && order != []
    && img.palette == Quantize.PaletteOf(order, MAX_COLORS)
    && |img.pix| == |keys|
    && forall i :: 0 <= i < |keys| ==> img.pix[i] == NearestIn(keys[i], order)
  }

  function NearestIn(key: Quantize.Key, order: seq<Quantize.Key>): nat
    requires order != []
  {
    var pal := Quantize.PaletteOf(order, MAX_COLORS);
    Quantize.Nearest(key, pal, |pal|)
  }

  ghost predicate IsQuantization(pixels: Pixels, img: Image) {
    exists order ::
      && Quantize.IsSortedListing(order, Quantize.HistogramOf(Quantize.Keys(pixels)))
      && QuantizedBy(pixels, order, img)
  }

  predicate FewColors(pixels: Pixels) {
    |Quantize.HistogramOf(Quantize.Keys(pixels))| <= MAX_COLORS
  }

  predicate Distinct(order: seq<Quantize.Key>) {
    forall i, j :: 0 <= i < j < |order| ==> order[i] != order[j]
  }

  lemma {:induction false} DistinctMembers(order: seq<Quantize.Key>)
    requires Distinct(order)
    ensures |Quantize.Members(order)| == |order|
    decreases |order|
  {
    if order == [] {
      assert Quantize.Members(order) == {};
    } else {
      var (init, k) := (order[..|order| - 1], order[|order| - 1]);
      DistinctMembers(init);
      assert k !in init;
      assert order == init + [k];
      assert Quantize.Members(order) == Quantize.Members(init) + {k};
    }
  }

  lemma ListingLength(order: seq<Quantize.Key>, counts: map<Quantize.Key, nat>)
    requires Quantize.IsSortedListing(order, counts)
    ensures |order| == |counts|
  {
    DistinctMembers(order);
    assert Quantize.Members(order) == counts.Keys;
  }

  /** A screenshot with no more colours than a palette holds is shown exactly, whatever the listing. */
  lemma FewColorsShownExactly(pixels: Pixels, img: Image)
    requires |pixels| >= 4 && FewColors(pixels) && IsQuantization(pixels, img)
    ensures Colors(img) == Quantize.Keys(pixels)
  {
    var keys := Quantize.Keys(pixels);
    var order :| Quantize.IsSortedListing(order, Quantize.HistogramOf(keys)) && QuantizedBy(pixels, order, img);
    ListingLength(order, Quantize.HistogramOf(keys));
    Quantize.ExactIff(keys, order, MAX_COLORS);
    var pal := Quantize.PaletteOf(order, MAX_COLORS);
    forall i | 0 <= i < |keys|
      ensures Colors(img)[i] == keys[i]
    {
      assert Quantize.Shown(keys, pal)[i] == keys[i];
    }
  }

  /** The sampler's frames are quantizations of its shots. */
  ghost predicate Recorded(shots: seq<Shot>, fs: seq<Frame>) {
    && |fs| == |shots|
    && forall i :: 0 <= i < |shots| ==>
         |shots[i].pixels| >= 4 && IsQuantization(shots[i].pixels, fs[i].image) && fs[i].at == shots[i].at
  }

  /** A sampler whose quantizer gives quantizations records such frames. */
  lemma SamplerRecords(shots: seq<Shot>, quantize: Pixels -> Image)
    requires forall i :: 0 <= i < |shots| ==> |shots[i].pixels| >= 4
    requires forall pixels :: |pixels| >= 4 ==> IsQuantization(pixels, quantize(pixels))
    ensures Recorded(shots, Quantized(shots, quantize))
  {
  }

  /** Every frame a kept one stands for is shown as it was shot. */
  predicate PlaysShots(shots: seq<Shot>, out: seq<Frame>, ix: seq<nat>) {
    && |ix| == |out| && (shots != [] ==> ix != [] && ix[0] == 0)
    && forall k, i :: 0 <= k < |out| && ix[k] <= i < End(ix, k, |shots|) && i < |shots| ==>
         Colors(out[k].image) == Quantize.Keys(shots[i].pixels)
  }

  /** A recording of screenshots with few colours plays exactly what was shot, merged or not: from the first
      on, each kept frame shows what every shot up to the next kept one showed. */
  lemma FewColorsPlayedExactly(shots: seq<Shot>, fs: seq<Frame>) returns (ix: seq<nat>)
    requires Recorded(shots, fs) && forall i :: 0 <= i < |shots| ==> FewColors(shots[i].pixels)
    ensures Keeps(fs, Merged(fs), ix) && PlaysShots(shots, Merged(fs), ix)
    ensures forall i :: 0 <= i < |shots| ==> Colors(fs[i].image) == Quantize.Keys(shots[i].pixels)
  {
    hide FewColors, IsQuantization, Merged, Colors;
    forall i | 0 <= i < |shots|
      ensures Colors(fs[i].image) == Quantize.Keys(shots[i].pixels)
    {
      FewColorsShownExactly(shots[i].pixels, fs[i].image);
    }
    ix := MergedKeeps(fs);
    var out := Merged(fs);
    assert |ix| == |out|;
    forall k, i | 0 <= k < |out| && ix[k] <= i < End(ix, k, |shots|) && i < |shots|
      ensures Colors(out[k].image) == Quantize.Keys(shots[i].pixels)
    {
      KeptAt(fs, out, ix, k);
    }
  }
}

/** Popularity quantization of recorded frames (internal/capture/gif.go). */
module Quantize {
  import opened Common

  /** An opaque colour packed as 0xRRGGBB. */
  type Key = k: int | 0 <= k < 0x1000000

  function Red(k: Key): int { k / 0x10000 }
  function Green(k: Key): int { k / 0x100 % 0x100 }
  function Blue(k: Key): int { k % 0x100 }

  function Square(n: int): int { n * n }

  function Dist(a: Key, b: Key): int {
    Square(Red(a) - Red(b)) + Square(Green(a) - Green(b)) + Square(Blue(a) - Blue(b))
  }

  function KeyAt(pix: seq<byte>, i: nat): Key
    requires 4 * i + 3 < |pix|
  {
    (pix[4 * i] as int) * 0x10000 + (pix[4 * i + 1] as int) * 0x100 + pix[4 * i + 2] as int
  }

  /** The colour of every pixel. */
  function Keys(pix: seq<byte>): (ks: seq<Key>)
    ensures |ks| == |pix| / 4
  {
    seq(|pix| / 4, i requires 0 <= i < |pix| / 4 => KeyAt(pix, i))
  }

  function Clamped(maxColors: int): int {
    Min(Max(maxColors, 2), 256)
  }

  // ---------------------------------------------------------------------------
  // The nearest palette colour

  /** The first of the palette's first `n` colours at the least distance. */
  function Nearest(key: Key, pal: seq<Key>, n: nat): (best: nat)
    requires 0 < n <= |pal|
    ensures best < n
  {
    if n == 1 then 0
    else
      var best := Nearest(key, pal, n - 1);
      if Dist(key, pal[n - 1]) < Dist(key, pal[best]) then n - 1 else best
  }

  lemma Product(m: nat, n: nat)
    requires m <= 255
    ensures m * n <= 255 * n && (m > 0 && n > 0 ==> m * n > 0)
  {
  }

  lemma SquareBounds(n: int)
    requires -255 <= n <= 255
    ensures 0 <= Square(n) <= 65025 && (Square(n) == 0 <==> n == 0)
  {
    if n >= 0 {
      Product(n, n);
    } else {
      Product(-n, -n);
      assert Square(n) == (-n) * (-n);
    }
  }

  lemma Components(k: Key)
    ensures 0 <= Red(k) < 256 && 0 <= Green(k) < 256 && 0 <= Blue(k) < 256
    ensures k == 0x10000 * Red(k) + 0x100 * Green(k) + Blue(k)
  {
  }

  lemma DistBounds(a: Key, b: Key)
    ensures 0 <= Dist(a, b) <= 195075 && (Dist(a, b) == 0 <==> a == b)
  {
    Components(a);
    Components(b);
    hide Red, Green, Blue, Square;
    SquareBounds(Red(a) - Red(b));
    SquareBounds(Green(a) - Green(b));
    SquareBounds(Blue(a) - Blue(b));
  }

  lemma {:induction false} NearestIsFirstMinimum(key: Key, pal: seq<Key>, n: nat)
    requires 0 < n <= |pal|
    ensures var best := Nearest(key, pal, n);
            && (forall j :: 0 <= j < n ==> Dist(key, pal[best]) <= Dist(key, pal[j]))
            && (forall j :: 0 <= j < best ==> Dist(key, pal[best]) < Dist(key, pal[j]))
  {
    hide Dist;
    if n > 1 {
      NearestIsFirstMinimum(key, pal, n - 1);
    }
  }

  /** A palette colour's first position is its own nearest colour. */
  lemma NearestOfMember(key: Key, pal: seq<Key>, i: nat)
    requires i < |pal| && pal[i] == key && forall j :: 0 <= j < i ==> pal[j] != key
    ensures Nearest(key, pal, |pal|) == i
  {
    var best := Nearest(key, pal, |pal|);
    NearestIsFirstMinimum(key, pal, |pal|);
    DistBounds(key, pal[best]);
    DistBounds(key, pal[i]);
  }

  // ---------------------------------------------------------------------------
  // The histogram and the palette

  function HistogramOf(keys: seq<Key>): map<Key, nat> {
    map k | k in keys :: multiset(keys)[k]
  }

  /** What listing a map and sorting it by descending count can give: each key once, ties in any order. */
  ghost predicate IsSortedListing(order: seq<Key>, counts: map<Key, nat>) {
    && (forall k :: k in order <==> k in counts)
    && (forall i, j :: 0 <= i < j < |order| ==> order[i] != order[j])
    && (forall i, j :: 0 <= i < j < |order| ==> counts[order[i]] >= counts[order[j]])
  }

  lemma HistogramSnoc(keys: seq<Key>, k: Key)
    ensures keys == [] ==> HistogramOf(keys) == map[]
    ensures var counts := HistogramOf(keys);
            HistogramOf(keys + [k]) == counts[k := (if k in counts then counts[k] else 0) + 1]
  {
    assert multiset(keys + [k]) == multiset(keys) + multiset{k};
  }

  method Histogram(pix: seq<byte>) returns (counts: map<Key, nat>)
    ensures counts == HistogramOf(Keys(pix))
  {
    hide HistogramOf;
    counts := map[];
    var n := 0;
    ghost var keys := Keys(pix);
    HistogramSnoc([], 0);
    while 4 * n + 3 < |pix|
      invariant n <= |keys| && counts == HistogramOf(keys[..n])
    {
      var key := KeyAt(pix, n);
      assert keys[..n + 1] == keys[..n] + [key];
      HistogramSnoc(keys[..n], key);
      counts := counts[key := (if key in counts then counts[key] else 0) + 1];
      n := n + 1;
    }
    assert keys[..n] == keys;
  }

  function PaletteOf(order: seq<Key>, maxColors: int): (pal: seq<Key>)
    requires |order| > 0
  {
    if |order| == 1 then [order[0], order[0]] else order[..Min(|order|, Clamped(maxColors))]
  }

  /** The palette with the two lookup tables, filled as pixels are mapped. */
  class Mapper {
    var pal: seq<Key>
    var idxOf: map<Key, nat>
    var cache: map<Key, nat>

    ghost predicate Valid()
      reads this
    {
      && 0 < |pal| <= 256
      && (forall k :: k in idxOf ==> idxOf[k] == Nearest(k, pal, |pal|))
      && (forall k :: k in cache ==> cache[k] == Nearest(k, pal, |pal|))
    }

    constructor (order: seq<Key>, maxColors: int, ghost counts: map<Key, nat>)
      requires |order| > 0 && IsSortedListing(order, counts)
      ensures Valid() && pal == PaletteOf(order, maxColors)
    {
      var entries := if |order| > Clamped(maxColors) then order[..Clamped(maxColors)] else order;
      var p, index := [], map[];
      for i := 0 to |entries|
        invariant p == entries[..i]
        invariant forall k :: k in index ==> exists j :: 0 <= j < i && entries[j] == k && index[k] == j
      {
        p := p + [entries[i]];
        index := index[entries[i] := i];
      }
      if |p| < 2 {
        p := p + [entries[0]];
      }
      forall k | k in index
        ensures index[k] == Nearest(k, p, |p|)
      {
        NearestOfMember(k, p, index[k]);
      }
      pal, idxOf, cache := p, index, map[];
    }

    /** The two tables never change the answer of the direct search. */
    method NearestIndex(key: Key) returns (best: nat)
      requires Valid()
      modifies this`cache
      ensures Valid() && best == Nearest(key, pal, |pal|)
    {
      hide Dist;
      if key in idxOf {
        return idxOf[key];
      }
      if key in cache {
        return cache[key];
      }
      var bestD: int := 0x4000_0000_0000_0000;
      best := 0;
      for i := 0 to |pal|
        invariant Valid()
        invariant i == 0 ==> best == 0 && bestD == 0x4000_0000_0000_0000
        invariant i > 0 ==> best == Nearest(key, pal, i) < i && bestD == Dist(key, pal[best])
      {
        DistBounds(key, pal[i]);
        var d := Dist(key, pal[i]);
        if d < bestD {
          best, bestD := i, d;
        }
      }
      cache := cache[key := best];
    }

    method FillPaletted(pix: seq<byte>, w: nat, h: nat, pd: array<nat>)
      requires Valid() && |pix| == 4 * (h * w) && pd.Length == h * w
      modifies this`cache, pd
      ensures Valid()
      ensures forall i :: 0 <= i < h * w ==> pd[i] == Nearest(KeyAt(pix, i), pal, |pal|)
    {
      var row := 0;
      for y := 0 to h
        invariant row == y * w <= h * w && Valid()
        invariant forall i :: 0 <= i < row ==> pd[i] == Nearest(KeyAt(pix, i), pal, |pal|)
      {
        RowFits(y, w, h);
        for x := 0 to w
          invariant Valid()
          invariant forall i :: 0 <= i < row + x ==> pd[i] == Nearest(KeyAt(pix, i), pal, |pal|)
        {
          pd[row + x] := NearestIndex(KeyAt(pix, row + x));
        }
        row := row + w;
      }
    }
  }

  lemma RowFits(y: nat, w: nat, h: nat)
    requires y < h
    ensures y * w + w == (y + 1) * w <= h * w
  {
    Times(w, y + 1, h);
  }

  /** `order` stands for what listing the histogram and sorting it gave. */
  method PopularQuantize(pix: seq<byte>, w: nat, h: nat, maxColors: int, order: seq<Key>)
    returns (pal: seq<Key>, pd: array<nat>)
    requires |pix| == 4 * (h * w) && h * w > 0
    requires IsSortedListing(order, HistogramOf(Keys(pix)))
    ensures |order| > 0 && pal == PaletteOf(order, maxColors)
    ensures pd.Length == h * w
    ensures forall i :: 0 <= i < h * w ==> pd[i] == Nearest(Keys(pix)[i], pal, |pal|) < |pal|
  {
    var counts := Histogram(pix);
    assert Keys(pix)[0] in counts;
    var m := new Mapper(order, maxColors, counts);
    pal := m.pal;
    pd := new nat[h * w];
    m.FillPaletted(pix, w, h, pd);
    forall i | 0 <= i < h * w
      ensures pd[i] == Nearest(Keys(pix)[i], pal, |pal|) < |pal|
    {
      NearestIsFirstMinimum(Keys(pix)[i], pal, |pal|);
    }
  }

  // ---------------------------------------------------------------------------
  // Properties

  /** The colours the quantized picture shows. */
  function Shown(keys: seq<Key>, pal: seq<Key>): (shown: seq<Key>)
    requires |pal| > 0
    ensures |shown| == |keys|
  {
    seq(|keys|, i requires 0 <= i < |keys| =>
      NearestIsFirstMinimum(keys[i], pal, |pal|);
      pal[Nearest(keys[i], pal, |pal|)])
  }

  /** A picture is reproduced exactly if and only if it has no more colours than the (clamped) limit. */
  lemma ExactIff(keys: seq<Key>, order: seq<Key>, maxColors: int)
    requires keys != [] && IsSortedListing(order, HistogramOf(keys))
    ensures |order| > 0
    ensures Shown(keys, PaletteOf(order, maxColors)) == keys <==> |order| <= Clamped(maxColors)
  {
    assert keys[0] in order;
    var pal, n := PaletteOf(order, maxColors), Clamped(maxColors);
    if |order| <= n {
      forall i | 0 <= i < |keys|
        ensures Shown(keys, pal)[i] == keys[i]
      {
        assert keys[i] in order;
        var j :| 0 <= j < |order| && order[j] == keys[i];
        NearestIsFirstMinimum(keys[i], pal, |pal|);
        assert pal[j] == keys[i];
        DistBounds(keys[i], pal[j]);
        DistBounds(keys[i], Shown(keys, pal)[i]);
      }
    } else {
      assert order[n] in keys;
      var i :| 0 <= i < |keys| && keys[i] == order[n];
      NearestIsFirstMinimum(keys[i], pal, |pal|);
      assert Shown(keys, pal)[i] in pal;
      assert Shown(keys, pal)[i] != keys[i];
    }
  }

  /** How many pixels have a colour in `p`. */
  function Hits(keys: seq<Key>, p: set<Key>): nat {
    if keys == [] then 0 else Hits(keys[1..], p) + (if keys[0] in p then 1 else 0)
  }

  lemma {:induction false} HitsWithout(keys: seq<Key>, p: set<Key>, k: Key)
    requires k in p
    ensures Hits(keys, p) == Hits(keys, p - {k}) + multiset(keys)[k]
  {
    if keys != [] {
      HitsWithout(keys[1..], p, k);
      assert keys == [keys[0]] + keys[1..];
    }
  }

  lemma {:induction false} HitsNone(keys: seq<Key>)
    ensures Hits(keys, {}) == 0
  {
    if keys != [] {
      HitsNone(keys[1..]);
    }
  }

  function Members(order: seq<Key>): set<Key> {
    set k | k in order
  }

  lemma {:induction false} FewMembers(order: seq<Key>)
    ensures |Members(order)| <= |order|
  {
    if order == [] {
      assert Members(order) == {};
    } else {
      FewMembers(order[1..]);
      assert Members(order) == {order[0]} + Members(order[1..]);
    }
  }

  /** A set of `n` colours holds one that is not among the `n - 1` most frequent. */
  lemma Outsider(p: set<Key>, front: seq<Key>) returns (k: Key)
    requires |p| > |front|
    ensures k in p && k !in front
  {
    FewMembers(front);
    if p <= Members(front) {
      SubsetCard(p, Members(front));
    }
    k :| k in p && k !in Members(front);
  }

  lemma MembersWithout(keys: seq<Key>, order: seq<Key>, n: nat)
    requires IsSortedListing(order, HistogramOf(keys)) && 0 < n <= |order|
    ensures order[n - 1] in Members(order[..n])
    ensures Members(order[..n]) - {order[n - 1]} == Members(order[..n - 1])
  {
    assert order[n - 1] !in order[..n - 1];
    hide IsSortedListing, HistogramOf;
    assert order[..n] == order[..n - 1] + [order[n - 1]];
  }

  /** No choice of `n` colours reproduces more pixels exactly than the first `n` of the sorted listing. */
  lemma {:induction false} MostPixelsExact(keys: seq<Key>, order: seq<Key>, n: nat, p: set<Key>)
    requires IsSortedListing(order, HistogramOf(keys))
    requires |p| <= n <= |order|
    ensures Hits(keys, p) <= Hits(keys, Members(order[..n]))
    decreases n
  {
    hide IsSortedListing, HistogramOf, Hits, Members;
    if n == 0 {
      HitsNone(keys);
    } else {
      var top, front := order[n - 1], order[..n - 1];
      MembersWithout(keys, order, n);
      HitsWithout(keys, Members(order[..n]), top);
      if |p| < n {
        MostPixelsExact(keys, order, n - 1, p);
      } else {
        var k := Outsider(p, front);
        HitsWithout(keys, p, k);
        MostPixelsExact(keys, order, n - 1, p - {k});
        assert forall j :: 0 <= j < n - 1 ==> front[j] == order[j];
        OutsiderIsRarer(keys, order, n, k);
      }
    }
  }

  /** Every colour outside a prefix of the listing is at most as frequent as the prefix's colours. */
  lemma OutsiderIsRarer(keys: seq<Key>, order: seq<Key>, n: nat, k: Key)
    requires IsSortedListing(order, HistogramOf(keys))
    requires 0 < n <= |order| && forall j :: 0 <= j < n - 1 ==> order[j] != k
    ensures multiset(keys)[k] <= multiset(keys)[order[n - 1]]
  {
    assert order[n - 1] in order;
    if k in keys {
      assert k in HistogramOf(keys);
      var j :| 0 <= j < |order| && order[j] == k;
    }
  }

  /** Kept colours are at least as frequent as dropped ones. */
  lemma KeptAtLeastAsFrequent(keys: seq<Key>, order: seq<Key>, maxColors: int, kept: Key, dropped: Key)
    requires IsSortedListing(order, HistogramOf(keys)) && |order| > 0
    requires kept in PaletteOf(order, maxColors) && dropped !in PaletteOf(order, maxColors)
    ensures multiset(keys)[dropped] <= multiset(keys)[kept]
  {
    var pal := PaletteOf(order, maxColors);
    var i :| 0 <= i < |pal| && pal[i] == kept;
    var n := if |order| == 1 then 1 else i + 1;
    assert order[n - 1] == kept;
    forall j | 0 <= j < n - 1
      ensures order[j] != dropped
    {
      assert pal[j] == order[j];
    }
    OutsiderIsRarer(keys, order, n, dropped);
  }

  /** The colour of a pixel is that of its first three bytes: red, green, blue. */
  lemma KeyIsRgb(pix: seq<byte>, i: nat)
    requires 4 * i + 3 < |pix|
    ensures Red(KeyAt(pix, i)) == pix[4 * i] && Green(KeyAt(pix, i)) == pix[4 * i + 1] && Blue(KeyAt(pix, i)) == pix[4 * i + 2]
  {
    var (r, g, b) := (pix[4 * i] as int, pix[4 * i + 1] as int, pix[4 * i + 2] as int);
    var k := r * 0x10000 + g * 0x100 + b;
    assert k / 0x100 == r * 0x100 + g;
  }

  lemma KeysAreRgb(pix: seq<byte>)
    ensures |Keys(pix)| == |pix| / 4
    ensures forall i :: 0 <= i < |Keys(pix)| ==>
              var k := Keys(pix)[i]; Red(k) == pix[4 * i] && Green(k) == pix[4 * i + 1] && Blue(k) == pix[4 * i + 2]
  {
    hide Red, Green, Blue;
    forall i | 0 <= i < |Keys(pix)|
      ensures var k := Keys(pix)[i]; Red(k) == pix[4 * i] && Green(k) == pix[4 * i + 1] && Blue(k) == pix[4 * i + 2]
    {
      KeyIsRgb(pix, i);
    }
  }

  /** The squared distance of two colours. */
  lemma DistIs(a: Key, b: Key)
    ensures Dist(a, b) == (Red(a) - Red(b)) * (Red(a) - Red(b)) + (Green(a) - Green(b)) * (Green(a) - Green(b))
                          + (Blue(a) - Blue(b)) * (Blue(a) - Blue(b))
  {
  }

  /** The palette has the limit's number of colours, taken to be from 2 to 256, or all there are; one colour is
      given twice. */
  lemma PaletteSize(order: seq<Key>, maxColors: int)
    requires |order| > 0
    ensures var limit := if maxColors < 2 then 2 else if maxColors > 256 then 256 else maxColors;
            && 2 <= |PaletteOf(order, maxColors)| <= 256
            && |PaletteOf(order, maxColors)| == (if |order| == 1 then 2 else Min(|order|, limit))
            && Members(PaletteOf(order, maxColors)) == Members(order[..Min(|order|, limit)])
  {
    if |order| == 1 {
      assert order[..1] == order;
      assert PaletteOf(order, maxColors)[0] == order[0];
    }
  }

  /** How many pixels a palette shows exactly. */
  function ExactPixels(keys: seq<Key>, shown: seq<Key>): nat
    requires |keys| == |shown|
  {
    if keys == [] then 0 else ExactPixels(keys[1..], shown[1..]) + if keys[0] == shown[0] then 1 else 0
  }

  lemma ShownExactlyIff(key: Key, pal: seq<Key>)
    requires |pal| > 0
    ensures pal[Nearest(key, pal, |pal|)] == key <==> key in pal
  {
    NearestIsFirstMinimum(key, pal, |pal|);
    if key in pal {
      var j :| 0 <= j < |pal| && pal[j] == key;
      DistBounds(key, pal[j]);
      DistBounds(key, pal[Nearest(key, pal, |pal|)]);
    }
  }

  lemma {:induction false} ExactPixelsAreHits(keys: seq<Key>, pal: seq<Key>)
    requires |pal| > 0
    ensures ExactPixels(keys, Shown(keys, pal)) == Hits(keys, Members(pal))
  {
    hide Nearest, Dist;
    if keys != [] {
      ExactPixelsAreHits(keys[1..], pal);
      assert Shown(keys, pal)[1..] == Shown(keys[1..], pal);
      ShownExactlyIff(keys[0], pal);
    }
  }

  /** The palette chosen shows at least as many pixels exactly as any other of at most the limit's colours. */
  lemma BestPalette(keys: seq<Key>, order: seq<Key>, maxColors: int, other: seq<Key>)
    requires keys != [] && IsSortedListing(order, HistogramOf(keys)) && 0 < |other| <= Clamped(maxColors)
    ensures |order| > 0
    ensures ExactPixels(keys, Shown(keys, other)) <= ExactPixels(keys, Shown(keys, PaletteOf(order, maxColors)))
  {
    assert keys[0] in HistogramOf(keys);
    assert keys[0] in order;
    hide IsSortedListing, HistogramOf, Shown, ExactPixels, Hits;
    ExactPixelsAreHits(keys, other);
    ExactPixelsAreHits(keys, PaletteOf(order, maxColors));
    PaletteSize(order, maxColors);
    FewMembers(other);
    var n := Min(|order|, Clamped(maxColors));
    if n < |order| {
      MostPixelsExact(keys, order, n, Members(other));
    } else {
      AllHit(keys, order, Members(other));
    }
  }

  lemma AllHit(keys: seq<Key>, order: seq<Key>, p: set<Key>)
    requires IsSortedListing(order, HistogramOf(keys))
    ensures Hits(keys, p) <= Hits(keys, Members(order[..|order|]))
  {
    assert order[..|order|] == order;
    forall k | k in keys
      ensures k in Members(order)
    {
      assert k in HistogramOf(keys);
    }
    HitsAtMost(keys, p);
    HitsAll(keys, Members(order));
  }

  lemma {:induction false} HitsAtMost(keys: seq<Key>, p: set<Key>)
    ensures Hits(keys, p) <= |keys|
  {
    if keys != [] {
      HitsAtMost(keys[1..], p);
    }
  }

  lemma {:induction false} HitsAll(keys: seq<Key>, p: set<Key>)
    requires forall k :: k in keys ==> k in p
    ensures Hits(keys, p) == |keys|
  {
    if keys != [] {
      HitsAll(keys[1..], p);
    }
  }

  lemma {:induction false} LeastFrequent(counts: map<Key, nat>) returns (k: Key)
    requires counts != map[]
    ensures k in counts && forall j :: j in counts ==> counts[k] <= counts[j]
    decreases |counts|
  {
    k :| k in counts;
    if counts - {k} != map[] {
      var least := LeastFrequent(counts - {k});
      assert forall j :: j in counts ==> j == k || j in counts - {k};
      if counts[least] < counts[k] {
        k := least;
      }
    } else {
      assert forall j :: j in counts ==> j == k || j in counts - {k};
    }
  }

  lemma ListingSnoc(rest: seq<Key>, counts: map<Key, nat>, k: Key)
    requires k in counts && IsSortedListing(rest, counts - {k}) && forall j :: j in counts ==> counts[k] <= counts[j]
    ensures IsSortedListing(rest + [k], counts)
  {
    var order := rest + [k];
    assert forall i :: 0 <= i < |rest| ==> order[i] == rest[i] && rest[i] in rest && rest[i] in counts - {k};
    forall j
      ensures j in order <==> j in counts
    {
      assert j in order <==> j in rest || j == k;
    }
  }

  /** Every histogram has a sorted listing. */
  lemma {:induction false} SortedListingExists(counts: map<Key, nat>) returns (order: seq<Key>)
    ensures IsSortedListing(order, counts)
    decreases |counts|
  {
    if counts == map[] {
      order := [];
    } else {
      hide IsSortedListing;
      var k := LeastFrequent(counts);
      var rest := SortedListingExists(counts - {k});
      ListingSnoc(rest, counts, k);
      order := rest + [k];
    }
  }
}

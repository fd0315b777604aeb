/** When merging equal frames keeps the rounded playing time (internal/capture/gif.go). */
module GifRounding {
  import opened Common
  import opened GifTimeline

  // ---------------------------------------------------------------------------
  // One dropped frame

  /** The last digit of the whole milliseconds in `d`. */
  function LastDigit(d: nat): nat {
    d / 1_000_000 % 10
  }

  /** The parts of `a` and `b` below a millisecond add up to one. */
  function Carry(a: nat, b: nat): nat {
    if a % 1_000_000 + b % 1_000_000 >= 1_000_000 then 1 else 0
  }

  /** Two delays and their sum round alike: for delays of at least 5 ms, unless two last digits below 5 add up
      to 5 or more, or two of 5 and more to less than 15. A shorter delay counts as 10 ms, so the other has to
      be rounded down where the sum is rounded up. */
  predicate RoundAlike(a: nat, b: nat) {
    var r, s, c := LastDigit(a), LastDigit(b), Carry(a, b);
    if a < Ms(5) && b < Ms(5) then false
    else if a < Ms(5) || b < Ms(5) then r < 5 && s < 5 && r + s + c >= 5
    else !(r < 5 && s < 5 && r + s + c >= 5) && !(r >= 5 && s >= 5 && r + s + c < 15)
  }

  lemma DelayByDigits(d: nat)
    ensures d == 10_000_000 * (d / 10_000_000) + 1_000_000 * LastDigit(d) + d % 1_000_000
    ensures Centiseconds(d) == Max(1, d / 10_000_000 + if LastDigit(d) >= 5 then 1 else 0)
  {
    var m := d / 1_000_000;
    assert m == 10 * (m / 10) + m % 10;
    assert d / 10_000_000 == m / 10;
    assert (m + 5) / 10 == m / 10 + if m % 10 >= 5 then 1 else 0;
  }

  lemma SumByDigits(a: nat, b: nat)
    ensures var q := LastDigit(a) + LastDigit(b) + Carry(a, b);
            && (a + b) / 10_000_000 == a / 10_000_000 + b / 10_000_000 + (if q >= 10 then 1 else 0)
            && LastDigit(a + b) == if q >= 10 then q - 10 else q
  {
    hide Centiseconds;
    DelayByDigits(a);
    DelayByDigits(b);
    var (u, f, q) := (a / 10_000_000 + b / 10_000_000, a % 1_000_000 + b % 1_000_000, LastDigit(a) + LastDigit(b) + Carry(a, b));
    var rest := f - 1_000_000 * Carry(a, b);
    assert a + b == 10_000_000 * u + 1_000_000 * q + rest && 0 <= rest < 1_000_000;
    assert (a + b) / 1_000_000 == 10 * u + q;
  }

  function RoundUp(digit: nat): nat {
    if digit >= 5 then 1 else 0
  }

  /** The case analysis, on tens `u` and `v` of milliseconds and last digits `r` and `s`. */
  lemma RoundDigits(u: nat, v: nat, r: nat, s: nat, c: nat)
    requires r < 10 && s < 10 && c <= 1
    ensures var q := r + s + c;
            var both := if q >= 10 then u + v + 1 + RoundUp(q - 10) else u + v + RoundUp(q);
            Max(1, both) == Max(1, u + RoundUp(r)) + Max(1, v + RoundUp(s))
            <==> if u == 0 && r < 5 && v == 0 && s < 5 then false
                 else if (u == 0 && r < 5) || (v == 0 && s < 5) then r < 5 && s < 5 && q >= 5
                 else !(r < 5 && s < 5 && q >= 5) && !(r >= 5 && s >= 5 && q < 15)
  {
  }

  lemma ShortByDigits(d: nat)
    ensures d < Ms(5) <==> d / 10_000_000 == 0 && LastDigit(d) < 5
  {
    DelayByDigits(d);
  }

  lemma RoundAlikeIff(a: nat, b: nat)
    ensures Centiseconds(a + b) == Centiseconds(a) + Centiseconds(b) <==> RoundAlike(a, b)
  {
    hide Centiseconds, LastDigit, Ms, Carry;
    DelayByDigits(a);
    DelayByDigits(b);
    DelayByDigits(a + b);
    SumByDigits(a, b);
    ShortByDigits(a);
    ShortByDigits(b);
    DigitRange(a, b);
    RoundDigits(a / 10_000_000, b / 10_000_000, LastDigit(a), LastDigit(b), Carry(a, b));
  }

  lemma DigitRange(a: nat, b: nat)
    ensures LastDigit(a) < 10 && LastDigit(b) < 10 && Carry(a, b) <= 1
  {
  }

  lemma {:induction false} SumAppend(s: seq<int>, t: seq<int>)
    ensures Sum(s + t) == Sum(s) + Sum(t)
    decreases |t|
  {
    if t == [] {
      assert s + t == s;
    } else {
      var n := |t| - 1;
      assert (s + t)[..|s + t| - 1] == s + t[..n];
      SumAppend(s, t[..n]);
    }
  }

  function Without(fs: seq<Frame>, k: nat): seq<Frame>
    requires k < |fs|
  {
    fs[..k] + fs[k + 1..]
  }

  lemma SpansWithout(fs: seq<Frame>, stopAt: int, k: nat, i: nat)
    requires Sorted(fs, stopAt) && 0 < k < |fs| && i < |fs| - 1
    ensures Span(Without(fs, k), stopAt, i)
            == if i < k - 1 then Span(fs, stopAt, i)
               else if i == k - 1 then Span(fs, stopAt, k - 1) + Span(fs, stopAt, k)
               else Span(fs, stopAt, i + 1)
  {
  }

  lemma DelaysWithout(fs: seq<Frame>, stopAt: int, k: nat)
    requires Sorted(fs, stopAt) && 0 < k < |fs|
    ensures var (ds, a, b) := (Delays(fs, stopAt), Span(fs, stopAt, k - 1), Span(fs, stopAt, k));
            && ds == ds[..k - 1] + ([Centiseconds(a), Centiseconds(b)] + ds[k + 1..])
            && Delays(Without(fs, k), stopAt) == ds[..k - 1] + ([Centiseconds(a + b)] + ds[k + 1..])
  {
    hide Centiseconds, Span, Sorted;
    var (ds, es) := (Delays(fs, stopAt), Delays(Without(fs, k), stopAt));
    var (a, b) := (Span(fs, stopAt, k - 1), Span(fs, stopAt, k));
    assert ds[k - 1] == Centiseconds(a) && ds[k] == Centiseconds(b);
    forall i | 0 <= i < |es|
      ensures es[i] == (ds[..k - 1] + ([Centiseconds(a + b)] + ds[k + 1..]))[i]
    {
      SpansWithout(fs, stopAt, k, i);
    }
  }

  /** Dropping one frame, its time going to the one before, keeps the playing time if and only if the two
      delays round like their sum. */
  lemma DroppingKeepsTimeIff(fs: seq<Frame>, stopAt: int, k: nat)
    requires Sorted(fs, stopAt) && 0 < k < |fs|
    ensures Sum(Delays(Without(fs, k), stopAt)) == Sum(Delays(fs, stopAt))
            <==> RoundAlike(Span(fs, stopAt, k - 1), Span(fs, stopAt, k))
  {
    hide Centiseconds, RoundAlike, Sum, Span, Without, Delays, Sorted;
    var (ds, a, b) := (Delays(fs, stopAt), Span(fs, stopAt, k - 1), Span(fs, stopAt, k));
    var (front, back) := (ds[..k - 1], ds[k + 1..]);
    DelaysWithout(fs, stopAt, k);
    SumOfThree(front, [Centiseconds(a), Centiseconds(b)], back);
    SumOfThree(front, [Centiseconds(a + b)], back);
    SumOfTwo(Centiseconds(a), Centiseconds(b));
    SumOfTwo(Centiseconds(a + b), 0);
    RoundAlikeIff(a, b);
  }

  lemma SumOfThree(a: seq<int>, b: seq<int>, c: seq<int>)
    ensures Sum(a + (b + c)) == Sum(a) + Sum(b) + Sum(c)
  {
    SumAppend(a, b + c);
    SumAppend(b, c);
  }

  /** Merging up to frame `n`, when what is kept so far ends with a frame showing what frame `j` shows. */
  lemma MergedNext(fs: seq<Frame>, n: nat, kept: seq<Frame>, j: nat)
    requires n < |fs| && j < |fs| && Merged(fs[..n]) == kept && kept != [] && kept[|kept| - 1] == fs[j]
    ensures Merged(fs[..n + 1]) == if Colors(fs[j].image) == Colors(fs[n].image) then kept else kept + [fs[n]]
  {
    hide Merged, Colors;
    assert fs[..n + 1] == fs[..n] + [fs[n]];
    MergedSnoc(fs[..n], fs[n]);
  }

  /** Frame `k` is the only one that shows what the frame before it shows. */
  predicate OnlyRepeat(fs: seq<Frame>, k: nat) {
    forall i :: 1 <= i < |fs| ==> (Colors(fs[i - 1].image) == Colors(fs[i].image) <==> i == k)
  }

  lemma MergedFirst(fs: seq<Frame>)
    requires fs != []
    ensures Merged(fs[..1]) == fs[..1]
  {
    hide Merged, Colors;
    MergedNone();
    assert fs[..1] == [] + [fs[0]];
    MergedSnoc([], fs[0]);
  }

  lemma Neighbours(fs: seq<Frame>, k: nat, i: nat)
    requires OnlyRepeat(fs, k) && 1 <= i < |fs|
    ensures Colors(fs[i - 1].image) == Colors(fs[i].image) <==> i == k
  {
  }

  lemma {:induction false} NoneRepeatedBefore(fs: seq<Frame>, k: nat, n: nat)
    requires OnlyRepeat(fs, k) && 0 < n <= k < |fs|
    ensures Merged(fs[..n]) == fs[..n]
    decreases n
  {
    hide Merged, Colors, OnlyRepeat;
    if n == 1 {
      MergedFirst(fs);
    } else {
      NoneRepeatedBefore(fs, k, n - 1);
      Neighbours(fs, k, n - 1);
      MergedNext(fs, n - 1, fs[..n - 1], n - 2);
      assert fs[..n] == fs[..n - 1] + [fs[n - 1]];
    }
  }

  lemma {:induction false} OnlyRepeatMerges(fs: seq<Frame>, k: nat, n: nat)
    requires OnlyRepeat(fs, k) && 0 < k < n <= |fs|
    ensures Merged(fs[..n]) == fs[..k] + fs[k + 1..n]
    decreases n
  {
    hide Merged, Colors, OnlyRepeat;
    Neighbours(fs, k, k);
    if n == k + 1 {
      NoneRepeatedBefore(fs, k, k);
      MergedNext(fs, k, fs[..k], k - 1);
      assert fs[k + 1..n] == [] && fs[..k] + [] == fs[..k];
    } else {
      OnlyRepeatMerges(fs, k, n - 1);
      Neighbours(fs, k, n - 1);
      DroppedNext(fs, k, n);
    }
  }

  /** Past the repeated frame: the frame after it shows what neither it nor the one before it shows. */
  lemma DroppedNext(fs: seq<Frame>, k: nat, n: nat)
    requires 0 < k && k + 1 < n <= |fs| && Merged(fs[..n - 1]) == fs[..k] + fs[k + 1..n - 1]
    requires Colors(fs[k - 1].image) == Colors(fs[k].image) && Colors(fs[n - 2].image) != Colors(fs[n - 1].image)
    ensures Merged(fs[..n]) == fs[..k] + fs[k + 1..n]
  {
    hide Merged, Colors;
    var kept := fs[..k] + fs[k + 1..n - 1];
    assert kept[|kept| - 1] == fs[if n == k + 2 then k - 1 else n - 2];
    MergedNext(fs, n - 1, kept, if n == k + 2 then k - 1 else n - 2);
    assert fs[k + 1..n] == fs[k + 1..n - 1] + [fs[n - 1]];
    assert fs[..k] + fs[k + 1..n] == kept + [fs[n - 1]];
  }

  /** Merging a recording with one repeated frame keeps the playing time if and only if the two delays
      round like their sum. */
  lemma OneRepeatKeepsTimeIff(fs: seq<Frame>, stopAt: int, k: nat)
    requires Sorted(fs, stopAt) && 0 < k < |fs| && OnlyRepeat(fs, k)
    ensures Sum(Delays(Merged(fs), stopAt)) == Sum(Delays(fs, stopAt))
            <==> RoundAlike(Span(fs, stopAt, k - 1), Span(fs, stopAt, k))
  {
    OnlyRepeatMerges(fs, k, |fs|);
    assert fs[..|fs|] == fs && fs[k + 1..|fs|] == fs[k + 1..];
    DroppingKeepsTimeIff(fs, stopAt, k);
  }

  lemma SumOfTwo(x: int, y: int)
    ensures Sum([x]) == x && Sum([x, y]) == x + y
  {
    assert [x][..0] == [] && [x, y][..1] == [x];
  }

  // ---------------------------------------------------------------------------
  // Whole groups

  function Rounded(spans: seq<int>): (cs: seq<int>)
    requires forall i :: 0 <= i < |spans| ==> spans[i] >= 0
    ensures |cs| == |spans|
  {
    seq(|spans|, i requires 0 <= i < |spans| => Centiseconds(spans[i]))
  }

  /** By how much rounding lengthens a delay. */
  function RoundingError(d: int): int
    requires d >= 0
  {
    Ms(10 * Centiseconds(d)) - d
  }

  function Errors(spans: seq<int>): (es: seq<int>)
    requires forall i :: 0 <= i < |spans| ==> spans[i] >= 0
    ensures |es| == |spans|
  {
    seq(|spans|, i requires 0 <= i < |spans| => RoundingError(spans[i]))
  }

  /** The rounding errors of a group stay within what one rounding may be off by. */
  predicate ErrorsFit(spans: seq<int>)
    requires forall i :: 0 <= i < |spans| ==> spans[i] >= 0
  {
    |spans| == 1 || -Ms(5) < Sum(Errors(spans)) <= Ms(5)
  }

  lemma {:induction false} ErrorsAddUp(spans: seq<int>)
    requires forall i :: 0 <= i < |spans| ==> spans[i] >= 0
    ensures Sum(Errors(spans)) == Ms(10 * Sum(Rounded(spans))) - Sum(spans)
    ensures Sum(Rounded(spans)) >= |spans| && Sum(spans) >= 0
    decreases |spans|
  {
    if spans != [] {
      var n := |spans| - 1;
      ErrorsAddUp(spans[..n]);
      assert Errors(spans)[..n] == Errors(spans[..n]) && Rounded(spans)[..n] == Rounded(spans[..n]);
    }
  }

  /** From 5 ms on a delay has only one rounding that is off by so little. */
  lemma OnlyRounding(d: int, c: int)
    requires d >= Ms(5)
    ensures c == Centiseconds(d) <==> -Ms(5) < Ms(10 * c) - d <= Ms(5)
  {
    CentisecondsClose(d);
    hide Centiseconds;
  }

  /** A group of delays and their sum round alike if and only if the rounding errors add up to no more than one
      rounding may be off by. */
  lemma GroupRoundsAlikeIff(spans: seq<int>)
    requires spans != [] && forall i :: 0 <= i < |spans| ==> spans[i] >= 0
    ensures Sum(spans) >= 0
    ensures Centiseconds(Sum(spans)) == Sum(Rounded(spans)) <==> ErrorsFit(spans)
  {
    ErrorsAddUp(spans);
    if |spans| == 1 {
      assert spans == [spans[0]] && Rounded(spans) == [Centiseconds(spans[0])];
      SumOfTwo(spans[0], 0);
      SumOfTwo(Centiseconds(spans[0]), 0);
    } else if Sum(spans) >= Ms(5) {
      OnlyRounding(Sum(spans), Sum(Rounded(spans)));
    } else {
      assert Centiseconds(Sum(spans)) == 1;
    }
  }

  /** By how many hundredths the rounded delays of a group exceed its rounded sum. */
  function Drift(spans: seq<int>): int
    requires forall i :: 0 <= i < |spans| ==> spans[i] >= 0
  {
    if |spans| <= 1 then 0
    else if Sum(spans) < Ms(5) then |spans| - 1
    else (Sum(Errors(spans)) + Ms(5) - 1) / Ms(10)
  }

  lemma {:induction false} ShortRounded(spans: seq<int>)
    requires (forall i :: 0 <= i < |spans| ==> spans[i] >= 0) && Sum(spans) < Ms(5)
    ensures Sum(Rounded(spans)) == |spans|
    decreases |spans|
  {
    if spans != [] {
      var n := |spans| - 1;
      ErrorsAddUp(spans[..n]);
      ShortRounded(spans[..n]);
      assert Rounded(spans)[..n] == Rounded(spans[..n]);
    }
  }

  /** Nearest multiple: with rest `e` in (-5 ms, 5 ms], `n` times 10 ms more has quotient `n`. */
  lemma DriftQuotient(n: int, e: int)
    requires -Ms(5) < e <= Ms(5)
    ensures (Ms(10 * n) + e + Ms(5) - 1) / Ms(10) == n
  {
    var x := Ms(10 * n) + e + Ms(5) - 1;
    assert x == 10_000_000 * n + (e + 5_000_000 - 1);
  }

  lemma DriftIs(spans: seq<int>)
    requires spans != [] && forall i :: 0 <= i < |spans| ==> spans[i] >= 0
    ensures Sum(spans) >= 0
    ensures Sum(Rounded(spans)) - Centiseconds(Sum(spans)) == Drift(spans)
  {
    ErrorsAddUp(spans);
    if |spans| == 1 {
      GroupRoundsAlikeIff(spans);
    } else if Sum(spans) < Ms(5) {
      ShortRounded(spans);
      ShortDelay(Sum(spans));
    } else {
      hide Centiseconds, Sum, Errors, Rounded;
      var c, e := Centiseconds(Sum(spans)), RoundingError(Sum(spans));
      OnlyRounding(Sum(spans), c);
      DriftQuotient(Sum(Rounded(spans)) - c, e);
    }
  }

  lemma ShortDelay(d: int)
    requires 0 <= d < Ms(5)
    ensures Centiseconds(d) == 1
  {
  }

  // ---------------------------------------------------------------------------
  // Whole recordings

  /** The spans of the frames that kept frame `k` stands for. */
  function Group(fs: seq<Frame>, stopAt: int, ix: seq<nat>, k: nat): (g: seq<int>)
    requires k < |ix| && ix[k] < End(ix, k, |fs|) <= |fs|
    ensures g != [] && forall i :: 0 <= i < |g| ==> g[i] >= 0
  {
    Spans(fs, stopAt)[ix[k]..End(ix, k, |fs|)]
  }

  lemma {:induction false} SumSlice(s: seq<int>, i: nat, j: nat)
    requires i <= j <= |s|
    ensures Sum(s[..j]) == Sum(s[..i]) + Sum(s[i..j])
  {
    assert s[..j] == s[..i] + s[i..j];
    SumAppend(s[..i], s[i..j]);
  }

  lemma RoundedSlice(fs: seq<Frame>, stopAt: int, i: nat, j: nat)
    requires i <= j <= |fs|
    ensures Rounded(Spans(fs, stopAt)[i..j]) == Delays(fs, stopAt)[i..j]
  {
    hide Centiseconds, Span;
    assert forall k :: i <= k < j ==> Spans(fs, stopAt)[i..j][k - i] == Span(fs, stopAt, k);
  }

  lemma SliceTelescopes(fs: seq<Frame>, stopAt: int, i: nat, j: nat)
    requires Sorted(fs, stopAt) && i < j <= |fs|
    ensures Sum(Spans(fs, stopAt)[i..j]) == (if j == |fs| then stopAt else fs[j].at) - fs[i].at
  {
    SumSlice(Spans(fs, stopAt), i, j);
    SpansTelescope(fs, stopAt, j);
    if i > 0 {
      SpansTelescope(fs, stopAt, i);
    } else {
      assert Spans(fs, stopAt)[..0] == [];
    }
  }

  lemma GroupIsSpan(fs: seq<Frame>, stopAt: int, out: seq<Frame>, ix: seq<nat>, k: nat)
    requires Sorted(fs, stopAt) && Keeps(fs, out, ix) && k < |out|
    ensures |ix| == |out| && ix[k] < End(ix, k, |fs|) <= |fs|
    ensures Sum(Group(fs, stopAt, ix, k)) == Span(out, stopAt, k)
    ensures Rounded(Group(fs, stopAt, ix, k)) == Delays(fs, stopAt)[ix[k]..End(ix, k, |fs|)]
  {
    hide Keeps, StandsFor, Sum, Delays, Spans, Rounded;
    KeptAt(fs, out, ix, k);
    KeptFrame(fs, out, ix, k);
    if k + 1 < |out| {
      KeptAt(fs, out, ix, k + 1);
      KeptFrame(fs, out, ix, k + 1);
    }
    SliceTelescopes(fs, stopAt, ix[k], End(ix, k, |fs|));
    RoundedSlice(fs, stopAt, ix[k], End(ix, k, |fs|));
  }

  lemma KeptFrame(fs: seq<Frame>, out: seq<Frame>, ix: seq<nat>, k: nat)
    requires k < |out| == |ix| && StandsFor(fs, out, ix, k)
    ensures ix[k] < |fs| && out[k] == fs[ix[k]]
  {
  }

  /** Kept frame `k` appears in both files at the same playing time. */
  predicate SameTime(fs: seq<Frame>, out: seq<Frame>, stopAt: int, ix: seq<nat>, k: nat)
    requires |ix| == |out| && k <= |out| && (k < |out| ==> ix[k] <= |fs|)
  {
    Sum(Delays(out, stopAt)[..k]) == Sum(Delays(fs, stopAt)[..if k < |out| then ix[k] else |fs|])
  }

  predicate AllSameTime(fs: seq<Frame>, out: seq<Frame>, stopAt: int, ix: seq<nat>)
    requires |ix| == |out| && forall k :: 0 <= k < |ix| ==> ix[k] <= |fs|
  {
    forall k :: 0 <= k <= |out| ==> SameTime(fs, out, stopAt, ix, k)
  }

  predicate AllFit(fs: seq<Frame>, stopAt: int, ix: seq<nat>)
    requires forall k :: 0 <= k < |ix| ==> ix[k] < End(ix, k, |fs|) <= |fs|
  {
    forall k :: 0 <= k < |ix| ==> ErrorsFit(Group(fs, stopAt, ix, k))
  }

  lemma SameTimeNext(fs: seq<Frame>, out: seq<Frame>, stopAt: int, ix: seq<nat>, k: nat)
    requires Sorted(fs, stopAt) && Keeps(fs, out, ix) && k < |out| == |ix|
    requires ix[k] < End(ix, k, |fs|) <= |fs| && SameTime(fs, out, stopAt, ix, k)
    ensures SameTime(fs, out, stopAt, ix, k + 1) <==> ErrorsFit(Group(fs, stopAt, ix, k))
  {
    hide Keeps, ErrorsFit, Rounded, Group;
    var (ds, es) := (Delays(fs, stopAt), Delays(out, stopAt));
    GroupIsSpan(fs, stopAt, out, ix, k);
    GroupRoundsAlikeIff(Group(fs, stopAt, ix, k));
    SumSlice(ds, ix[k], End(ix, k, |fs|));
    assert es[..k + 1][..k] == es[..k] && es[..k + 1][k] == Centiseconds(Span(out, stopAt, k));
  }

  lemma {:induction false} FitUpTo(fs: seq<Frame>, out: seq<Frame>, stopAt: int, ix: seq<nat>, n: nat)
    requires Sorted(fs, stopAt) && Keeps(fs, out, ix) && n <= |out| == |ix|
    requires forall k :: 0 <= k < |ix| ==> ix[k] < End(ix, k, |fs|) <= |fs|
    ensures (forall k :: 0 <= k <= n ==> SameTime(fs, out, stopAt, ix, k))
            <==> forall k :: 0 <= k < n ==> ErrorsFit(Group(fs, stopAt, ix, k))
    decreases n
  {
    hide SameTime, ErrorsFit, Group, Keeps;
    if n == 0 {
      StartSameTime(fs, out, stopAt, ix);
    } else {
      FitUpTo(fs, out, stopAt, ix, n - 1);
      if SameTime(fs, out, stopAt, ix, n - 1) {
        SameTimeNext(fs, out, stopAt, ix, n - 1);
      }
    }
  }

  lemma StartSameTime(fs: seq<Frame>, out: seq<Frame>, stopAt: int, ix: seq<nat>)
    requires Keeps(fs, out, ix) && |ix| == |out| && forall k :: 0 <= k < |ix| ==> ix[k] <= |fs|
    ensures SameTime(fs, out, stopAt, ix, 0)
  {
    assert Delays(fs, stopAt)[..0] == [] && Delays(out, stopAt)[..0] == [];
    assert |out| == 0 ==> fs == [];
  }

  /** Merging leaves every kept picture, and the end, at its playing time if and only if in every merged group
      the rounding errors stay within one rounding's. */
  lemma MergingKeepsTimesIff(fs: seq<Frame>, stopAt: int) returns (ix: seq<nat>)
    requires Sorted(fs, stopAt)
    ensures Keeps(fs, Merged(fs), ix) && |ix| == |Merged(fs)|
    ensures forall k :: 0 <= k < |ix| ==> ix[k] < End(ix, k, |fs|) <= |fs|
    ensures AllSameTime(fs, Merged(fs), stopAt, ix) <==> AllFit(fs, stopAt, ix)
    ensures AllFit(fs, stopAt, ix) ==> Sum(Delays(Merged(fs), stopAt)) == Sum(Delays(fs, stopAt))
  {
    hide Keeps, Merged, SameTime, ErrorsFit, Group;
    ix := MergedKeeps(fs);
    var out := Merged(fs);
    SameLength(fs, out, ix);
    forall k | 0 <= k < |ix|
      ensures ix[k] < End(ix, k, |fs|) <= |fs|
    {
      KeptAt(fs, out, ix, k);
    }
    FitUpTo(fs, out, stopAt, ix, |out|);
    if AllFit(fs, stopAt, ix) {
      EndSameTime(fs, out, stopAt, ix);
    }
  }

  lemma SameLength(fs: seq<Frame>, out: seq<Frame>, ix: seq<nat>)
    requires Keeps(fs, out, ix)
    ensures |ix| == |out|
  {
  }

  lemma EndSameTime(fs: seq<Frame>, out: seq<Frame>, stopAt: int, ix: seq<nat>)
    requires |ix| == |out| && SameTime(fs, out, stopAt, ix, |out|)
    ensures Sum(Delays(out, stopAt)) == Sum(Delays(fs, stopAt))
  {
    assert Delays(out, stopAt)[..|out|] == Delays(out, stopAt);
    assert Delays(fs, stopAt)[..|fs|] == Delays(fs, stopAt);
  }

  function Drifts(fs: seq<Frame>, stopAt: int, ix: seq<nat>): (ds: seq<int>)
    requires forall k :: 0 <= k < |ix| ==> ix[k] < End(ix, k, |fs|) <= |fs|
    ensures |ds| == |ix|
  {
    seq(|ix|, k requires 0 <= k < |ix| => Drift(Group(fs, stopAt, ix, k)))
  }

  /** The frame at which kept frame `k` begins, or the end. */
  function Start(fs: seq<Frame>, ix: seq<nat>, k: nat): nat
    requires k <= |ix|
  {
    if k < |ix| then ix[k] else |fs|
  }

  lemma DriftNext(fs: seq<Frame>, out: seq<Frame>, stopAt: int, ix: seq<nat>, k: nat)
    requires Sorted(fs, stopAt) && Keeps(fs, out, ix) && k < |out| == |ix|
    requires ix[k] < End(ix, k, |fs|) <= |fs|
    ensures Start(fs, ix, k) <= Start(fs, ix, k + 1) <= |fs|
    ensures var (ds, es) := (Delays(fs, stopAt), Delays(out, stopAt));
            Sum(ds[..Start(fs, ix, k + 1)]) - Sum(es[..k + 1])
            == Sum(ds[..Start(fs, ix, k)]) - Sum(es[..k]) + Drift(Group(fs, stopAt, ix, k))
  {
    hide Keeps, Rounded, Group, Drift, Sorted;
    var (ds, es) := (Delays(fs, stopAt), Delays(out, stopAt));
    GroupIsSpan(fs, stopAt, out, ix, k);
    DriftIs(Group(fs, stopAt, ix, k));
    SumSlice(ds, ix[k], End(ix, k, |fs|));
    assert es[..k + 1][..k] == es[..k] && es[..k + 1][k] == Centiseconds(Span(out, stopAt, k));
  }

  lemma {:induction false} DriftUpTo(fs: seq<Frame>, out: seq<Frame>, stopAt: int, ix: seq<nat>, n: nat)
    requires Sorted(fs, stopAt) && Keeps(fs, out, ix) && n <= |out| == |ix|
    requires forall k :: 0 <= k < |ix| ==> ix[k] < End(ix, k, |fs|) <= |fs|
    ensures Start(fs, ix, n) <= |fs|
    ensures Sum(Delays(fs, stopAt)[..Start(fs, ix, n)]) - Sum(Delays(out, stopAt)[..n])
            == Sum(Drifts(fs, stopAt, ix)[..n])
    decreases n
  {
    if n == 0 {
      StartSameTime(fs, out, stopAt, ix);
    } else {
      hide Keeps, Group, Drift, Sorted, Delays;
      DriftUpTo(fs, out, stopAt, ix, n - 1);
      DriftNext(fs, out, stopAt, ix, n - 1);
      assert Drifts(fs, stopAt, ix)[..n][..n - 1] == Drifts(fs, stopAt, ix)[..n - 1];
    }
  }

  /** The exact effect of merging on the file's duration: it loses the drifts of the merged groups. So merging
      keeps the duration if and only if the drifts add up to 0. */
  lemma MergingKeepsTotalIff(fs: seq<Frame>, stopAt: int) returns (ix: seq<nat>)
    requires Sorted(fs, stopAt)
    ensures Keeps(fs, Merged(fs), ix) && |ix| == |Merged(fs)|
    ensures forall k :: 0 <= k < |ix| ==> ix[k] < End(ix, k, |fs|) <= |fs|
    ensures Sum(Delays(fs, stopAt)) - Sum(Delays(Merged(fs), stopAt)) == Sum(Drifts(fs, stopAt, ix))
    ensures Sum(Delays(Merged(fs), stopAt)) == Sum(Delays(fs, stopAt)) <==> Sum(Drifts(fs, stopAt, ix)) == 0
  {
    hide Keeps, Merged, Group, Drift, Sum, Delays, Sorted;
    ix := MergingKeepsTimesIff(fs, stopAt);
    var (out, n) := (Merged(fs), |Merged(fs)|);
    DriftUpTo(fs, out, stopAt, ix, n);
    assert Drifts(fs, stopAt, ix)[..n] == Drifts(fs, stopAt, ix);
    assert Delays(out, stopAt)[..n] == Delays(out, stopAt);
    assert Delays(fs, stopAt)[..|fs|] == Delays(fs, stopAt);
  }
}

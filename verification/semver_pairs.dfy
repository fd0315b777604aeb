/** For which pairs of versions the comparison (internal/update/semver.go) follows section 11 of Semantic
    Versioning 2.0.0, numbers of any size included. */
module SemVerPairs {
  import opened Common
  import opened SemVer
  import opened SemVerLaws

  // ---------------------------------------------------------------------------
  // Numbers by their digits

  predicate IsNumber(s: string) {
    s != "" && AllDigits(s)
  }

  /** No leading zero, as section 9 of the standard asks of numeric identifiers. */
  predicate Plain(s: string) {
    IsNumber(s) && |s| > 1 ==> s[0] != '0'
  }

  function Pow10(n: nat): (p: nat)
    ensures p > 0
  {
    if n == 0 then 1 else 10 * Pow10(n - 1)
  }

  function Digit(c: char): (d: nat)
    requires IsDigit(c)
    ensures d < 10 && (d == 0 <==> c == '0')
  {
    (c - '0') as int
  }

  lemma {:induction false} ValueByHead(s: string)
    requires IsNumber(s)
    ensures Value(s) == Digit(s[0]) * Pow10(|s| - 1) + Value(s[1..])
    decreases |s|
  {
    var n := |s| - 1;
    if n == 0 {
      assert s[..0] == "" && s[1..] == "";
    } else {
      var init := s[..n];
      ValueByHead(init);
      assert s[1..][..n - 1] == init[1..] && s[1..][n - 1] == s[n];
      HeadTimesTen(Digit(s[0]), Pow10(n - 1), Value(init[1..]));
    }
  }

  lemma HeadTimesTen(d: nat, p: nat, v: nat)
    ensures 10 * (d * p + v) == d * (10 * p) + 10 * v
  {
  }

  lemma {:induction false} ValueBound(s: string)
    requires AllDigits(s)
    ensures Value(s) < Pow10(|s|)
    decreases |s|
  {
    if s != "" {
      ValueBound(s[..|s| - 1]);
    }
  }

  lemma HeadProduct(d: nat, e: nat, p: nat)
    requires d < e
    ensures d * p + p <= e * p
  {
    assert (d + 1) * p == d * p + p;
    Times(p, d + 1, e);
  }

  lemma LeadingDigit(s: string)
    requires IsNumber(s) && Plain(s) && |s| > 1
    ensures Pow10(|s| - 1) <= Value(s)
  {
    ValueByHead(s);
    HeadProduct(0, Digit(s[0]), Pow10(|s| - 1));
  }

  lemma {:induction false} Pow10Grows(m: nat, n: nat)
    requires m <= n
    ensures Pow10(m) <= Pow10(n)
    decreases n
  {
    if m < n {
      Pow10Grows(m, n - 1);
    }
  }

  lemma {:induction false} SameLengthOrder(a: string, b: string)
    requires AllDigits(a) && AllDigits(b) && |a| == |b|
    ensures Less(a, b) <==> Value(a) < Value(b)
    decreases |a|
  {
    if a != "" {
      SameLengthOrder(a[1..], b[1..]);
      ValueByHead(a);
      ValueByHead(b);
      ValueBound(a[1..]);
      ValueBound(b[1..]);
      var (d, e, p) := (Digit(a[0]), Digit(b[0]), Pow10(|a| - 1));
      if d < e {
        HeadProduct(d, e, p);
      } else if e < d {
        HeadProduct(e, d, p);
      }
    }
  }

  lemma ShorterIsLess(a: string, b: string)
    requires IsNumber(a) && IsNumber(b) && Plain(b) && |a| < |b|
    ensures Value(a) < Value(b)
  {
    ValueBound(a);
    LeadingDigit(b);
    Pow10Grows(|a|, |b| - 1);
  }

  /** Plain numbers compare by length, and then character by character. */
  lemma NumberOrder(a: string, b: string)
    requires IsNumber(a) && IsNumber(b) && Plain(a) && Plain(b)
    ensures Value(a) < Value(b) <==> |a| < |b| || (|a| == |b| && Less(a, b))
    ensures Value(a) == Value(b) <==> a == b
  {
    if |a| < |b| {
      ShorterIsLess(a, b);
    } else if |b| < |a| {
      ShorterIsLess(b, a);
    } else {
      SameLengthOrder(a, b);
      SameLengthOrder(b, a);
      LessTotal(a, b);
    }
  }

  // ---------------------------------------------------------------------------
  // Two identifiers

  /** Where the code and the standard put two identifiers in the same order: a number too large for a machine
      integer stands above any that is not; two such must be of one length, or the shorter one first in
      character order too; and any other identifier must be above it in character order. */
  predicate PairFits(a: string, b: string) {
    if FitsId(a) && FitsId(b) then true
    else if IsNumber(a) && IsNumber(b) then
      FitsId(a) || FitsId(b) || |a| == |b| || (|a| < |b| <==> Less(a, b))
    else if FitsId(b) then Less(a, b)
    else Less(b, a)
  }

  lemma DifferentIds(a: string, b: string)
    requires a != b && Plain(a) && Plain(b)
    ensures IdentifierOf(a) != IdentifierOf(b) && SpecIdentifier(a) != SpecIdentifier(b)
  {
    if IsNumber(a) && IsNumber(b) {
      NumberOrder(a, b);
    }
  }

  lemma PairAgreesIff(a: string, b: string)
    requires a != b && Plain(a) && Plain(b)
    ensures (CompareId(IdentifierOf(a), IdentifierOf(b)) < 0 <==> CompareId(SpecIdentifier(a), SpecIdentifier(b)) < 0)
            <==> PairFits(a, b)
  {
    LessTotal(a, b);
    if IsNumber(a) && IsNumber(b) {
      NumberOrder(a, b);
      NumberOrder(b, a);
    }
  }

  // ---------------------------------------------------------------------------
  // Two versions

  predicate AllPlain(v: Version) {
    forall i :: 0 <= i < |Split(v.pre)| ==> Plain(Split(v.pre)[i])
  }

  /** The first place at which two lists differ, or the end of the shorter one. */
  function FirstDifference(a: seq<string>, b: seq<string>): (i: nat)
    ensures i <= |a| && i <= |b|
    ensures i < |a| && i < |b| ==> a[i] != b[i]
    ensures a[..i] == b[..i]
  {
    if a == [] || b == [] || a[0] != b[0] then 0
    else
      var i := FirstDifference(a[1..], b[1..]);
      assert a[..i + 1] == [a[0]] + a[1..][..i] && b[..i + 1] == [b[0]] + b[1..][..i];
      i + 1
  }

  /** The prereleases decide. */
  predicate PreDecides(v: Version, w: Version) {
    v.major == w.major && v.minor == w.minor && v.patch == w.patch && v.pre != "" && w.pre != ""
  }

  lemma {:induction false} ComparePrefix(a: seq<Identifier>, b: seq<Identifier>, i: nat)
    requires i <= |a| && i <= |b| && (i == |a| || i == |b|) && a[..i] == b[..i]
    ensures CompareIds(a, b) == if |a| < |b| then -1 else if |a| > |b| then 1 else 0
    decreases i
  {
    if i > 0 {
      assert a[0] == a[..i][0] == b[..i][0] == b[0];
      CompareIdSwap(a[0], b[0]);
      assert a[1..][..i - 1] == a[..i][1..] && b[1..][..i - 1] == b[..i][1..];
      ComparePrefix(a[1..], b[1..], i - 1);
    }
  }

  /** What decides between two prereleases: the first differing identifiers, or else the lengths. */
  function CompareOnce(a: seq<Identifier>, b: seq<Identifier>, i: nat): int {
    if i < |a| && i < |b| then CompareId(a[i], b[i])
    else if |a| < |b| then -1 else if |a| > |b| then 1 else 0
  }

  lemma CompareDecided(a: seq<Identifier>, b: seq<Identifier>, i: nat)
    requires i <= |a| && i <= |b| && a[..i] == b[..i] && (i < |a| && i < |b| ==> a[i] != b[i])
    ensures CompareIds(a, b) == CompareOnce(a, b, i)
  {
    if i < |a| && i < |b| {
      CompareIdSwap(a[i], b[i]);
      CompareAt(a, b, i);
    } else {
      ComparePrefix(a, b, i);
    }
  }

  /** The two orders on the prereleases of versions that differ in nothing else. */
  lemma BothDecided(v: Version, w: Version)
    requires AllPlain(v) && AllPlain(w) && PreDecides(v, w)
    ensures var i := FirstDifference(Split(v.pre), Split(w.pre));
            && Compare(v, w) == CompareOnce(Identifiers(v.pre), Identifiers(w.pre), i)
            && (Below(v, w) <==> CompareOnce(SpecIdentifiers(v.pre), SpecIdentifiers(w.pre), i) < 0)
            && (Below(w, v) <==> CompareOnce(SpecIdentifiers(v.pre), SpecIdentifiers(w.pre), i) > 0)
  {
    hide CompareId, CompareOnce, Plain;
    var (p, q) := (Split(v.pre), Split(w.pre));
    var i := FirstDifference(p, q);
    var (x, y) := (SpecIdentifiers(v.pre), SpecIdentifiers(w.pre));
    SamePrefix(v.pre, w.pre, i);
    if i < |p| && i < |q| {
      DifferentIds(p[i], q[i]);
    }
    CompareDecided(Identifiers(v.pre), Identifiers(w.pre), i);
    CompareDecided(x, y, i);
    CompareIdsIsBelow(x, y);
    CompareIdsIsBelow(y, x);
    CompareIdsSwap(x, y);
  }

  /** Two versions whose numbers have no leading zeros compare as the standard says if and only if, where it comes
      to their prereleases and these differ in an identifier, the first two that differ are ordered alike. */
  lemma AgreesIff(v: Version, w: Version)
    requires AllPlain(v) && AllPlain(w)
    ensures var (p, q) := (Split(v.pre), Split(w.pre));
            var i := FirstDifference(p, q);
            Agrees(v, w) <==> (PreDecides(v, w) && i < |p| && i < |q| ==> PairFits(p[i], q[i]))
  {
    if PreDecides(v, w) {
      hide PairFits, Plain, IdentifierOf, SpecIdentifier, Compare, Below, CompareId;
      BothDecided(v, w);
      var (p, q) := (Split(v.pre), Split(w.pre));
      var i := FirstDifference(p, q);
      if i < |p| && i < |q| {
        PairAgreesIff(p[i], q[i]);
        DifferentIds(p[i], q[i]);
        CompareIdSwap(IdentifierOf(p[i]), IdentifierOf(q[i]));
        CompareIdSwap(SpecIdentifier(p[i]), SpecIdentifier(q[i]));
      }
    }
  }
}

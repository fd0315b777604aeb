/** Version precedence is a total preorder, it agrees with section 11 of Semantic Versioning 2.0.0 exactly when
    numeric identifiers fit the machine integer, and rendering a version undoes parsing it. */
module SemVerLaws {
  import opened Common
  import opened SemVer

  // ---------------------------------------------------------------------------
  // The order

  lemma {:induction false} LessTotal(a: string, b: string)
    ensures if a == b then !Less(a, b) && !Less(b, a) else Less(a, b) != Less(b, a)
  {
    if a != "" && b != "" {
      assert a == [a[0]] + a[1..] && b == [b[0]] + b[1..];
      LessTotal(a[1..], b[1..]);
    }
  }

  /** Character order: one text is below another if it is a proper beginning of it, or has the smaller character
      at the first place where they differ. */
  lemma {:induction false} LessIs(a: string, b: string)
    ensures Less(a, b) <==> exists i: nat :: FirstBelow(a, b, i)
    decreases |a|
  {
    if a == "" || b == "" || a[0] != b[0] {
      assert FirstBelow(a, b, 0) <==> Less(a, b);
      assert forall i: nat :: FirstBelow(a, b, i) && i > 0 ==> a[..i][0] == b[..i][0];
    } else {
      LessIs(a[1..], b[1..]);
      if Less(a, b) {
        var i: nat :| FirstBelow(a[1..], b[1..], i);
        FirstBelowTail(a, b, i);
      }
      forall i: nat | FirstBelow(a, b, i)
        ensures Less(a, b)
      {
        assert i > 0;
        FirstBelowTail(a, b, i - 1);
      }
    }
  }

  predicate FirstBelow(a: string, b: string, i: nat) {
    && i <= |a| && i < |b| && a[..i] == b[..i]
    && (i == |a| || a[i] < b[i])
  }

  lemma FirstBelowTail(a: string, b: string, i: nat)
    requires a != "" && b != "" && a[0] == b[0]
    ensures FirstBelow(a, b, i + 1) <==> FirstBelow(a[1..], b[1..], i)
  {
    if i + 1 <= |a| && i + 1 <= |b| {
      assert a[..i + 1] == [a[0]] + a[1..][..i] && b[..i + 1] == [b[0]] + b[1..][..i];
    }
  }

  lemma {:induction false} LessTransitive(a: string, b: string, c: string)
    requires Less(a, b) && Less(b, c)
    ensures Less(a, c)
  {
    if a != "" && a[0] == b[0] == c[0] {
      LessTransitive(a[1..], b[1..], c[1..]);
    }
  }

  lemma CompareIdSwap(a: Identifier, b: Identifier)
    ensures CompareId(b, a) == -CompareId(a, b)
    ensures CompareId(a, b) == 0 <==> a == b
  {
    if a.Text? && b.Text? {
      LessTotal(a.s, b.s);
    }
  }

  lemma CompareIdTransitive(a: Identifier, b: Identifier, c: Identifier)
    requires CompareId(a, b) <= 0 && CompareId(b, c) <= 0
    ensures CompareId(a, c) <= 0
    ensures CompareId(a, c) == 0 ==> CompareId(a, b) == 0 == CompareId(b, c)
  {
    CompareIdSwap(a, b);
    CompareIdSwap(b, c);
    CompareIdSwap(a, c);
    if a.Text? && b.Text? && c.Text? && a != b && b != c {
      LessTransitive(a.s, b.s, c.s);
    }
  }

  lemma {:induction false} CompareIdsSwap(a: seq<Identifier>, b: seq<Identifier>)
    ensures CompareIds(b, a) == -CompareIds(a, b)
    decreases |a|
  {
    if a != [] && b != [] {
      CompareIdSwap(a[0], b[0]);
      CompareIdsSwap(a[1..], b[1..]);
    }
  }

  lemma {:induction false} CompareIdsTransitive(a: seq<Identifier>, b: seq<Identifier>, c: seq<Identifier>)
    requires CompareIds(a, b) <= 0 && CompareIds(b, c) <= 0
    ensures CompareIds(a, c) <= 0
    decreases |a|
  {
    hide CompareId;
    if a != [] && b != [] && c != [] {
      CompareIdTransitive(a[0], b[0], c[0]);
      if CompareId(a[0], b[0]) == 0 && CompareId(b[0], c[0]) == 0 {
        CompareIdsTransitive(a[1..], b[1..], c[1..]);
      }
    }
  }

  /** Precedence is reflexive and sign-antisymmetric. */
  lemma CompareSwap(v: Version, w: Version)
    ensures Compare(w, v) == -Compare(v, w)
    ensures Compare(v, v) == 0
  {
    CompareIdsSwap(Identifiers(v.pre), Identifiers(w.pre));
    CompareIdsSwap(Identifiers(v.pre), Identifiers(v.pre));
  }

  /** Precedence is transitive. */
  lemma CompareTransitive(u: Version, v: Version, w: Version)
    requires Compare(u, v) <= 0 && Compare(v, w) <= 0
    ensures Compare(u, w) <= 0
  {
    if u.pre != "" && v.pre != "" && w.pre != "" && CompareIds(Identifiers(u.pre), Identifiers(v.pre)) <= 0
       && CompareIds(Identifiers(v.pre), Identifiers(w.pre)) <= 0 {
      CompareIdsTransitive(Identifiers(u.pre), Identifiers(v.pre), Identifiers(w.pre));
    }
  }

  // ---------------------------------------------------------------------------
  // Section 11 of Semantic Versioning 2.0.0, with numbers of any size

  function SpecIdentifier(s: string): Identifier {
    if s != "" && AllDigits(s) then Num(Value(s)) else Text(s)
  }

  function SpecIdentifiers(pre: string): (ids: seq<Identifier>)
    ensures |ids| == |Split(pre)|
  {
    var parts := Split(pre);
    seq(|parts|, i requires 0 <= i < |parts| => SpecIdentifier(parts[i]))
  }

  /** Numeric identifiers by value, others in character order, numeric below others. */
  predicate IdBelow(a: Identifier, b: Identifier) {
    || (a.Num? && b.Num? && a.n < b.n)
    || (a.Num? && b.Text?)
    || (a.Text? && b.Text? && Less(a.s, b.s))
  }

  /** The lists agree up to place `k`, where the first one ends or has the lower identifier. */
  predicate BelowAt(a: seq<Identifier>, b: seq<Identifier>, k: nat) {
    && k <= |a| && k < |b| && (forall j :: 0 <= j < k ==> a[j] == b[j])
    && (k == |a| || IdBelow(a[k], b[k]))
  }

  ghost predicate IdsBelow(a: seq<Identifier>, b: seq<Identifier>) {
    exists k: nat :: BelowAt(a, b, k)
  }

  ghost predicate PreBelow(a: string, b: string) {
    if a == "" || b == "" then a != "" else IdsBelow(SpecIdentifiers(a), SpecIdentifiers(b))
  }

  ghost predicate Below(v: Version, w: Version) {
    if v.major != w.major then v.major < w.major
    else if v.minor != w.minor then v.minor < w.minor
    else if v.patch != w.patch then v.patch < w.patch
    else v.pre != "" && PreBelow(v.pre, w.pre)
  }

  predicate FitsId(s: string) {
    s != "" && AllDigits(s) ==> Value(s) <= MAX_INT
  }

  /** Every numeric prerelease identifier fits the machine integer. */
  predicate Fits(v: Version) {
    forall i :: 0 <= i < |Split(v.pre)| ==> FitsId(Split(v.pre)[i])
  }

  lemma {:induction false} CompareIdsIsBelow(a: seq<Identifier>, b: seq<Identifier>)
    ensures CompareIds(a, b) < 0 <==> IdsBelow(a, b)
    decreases |a|
  {
    if a != [] && b != [] {
      CompareIdSwap(a[0], b[0]);
      if a[0] == b[0] {
        CompareIdsIsBelow(a[1..], b[1..]);
        TailBelow(a, b);
      } else {
        BelowAtHead(a, b);
      }
    } else {
      assert BelowAt(a, b, 0) <==> b != [];
    }
  }

  lemma BelowAtHead(a: seq<Identifier>, b: seq<Identifier>)
    requires a != [] && b != [] && a[0] != b[0]
    ensures IdsBelow(a, b) <==> IdBelow(a[0], b[0])
  {
    assert BelowAt(a, b, 0) <==> IdBelow(a[0], b[0]);
    forall k: nat | BelowAt(a, b, k)
      ensures k == 0
    {
    }
  }

  lemma TailBelow(a: seq<Identifier>, b: seq<Identifier>)
    requires a != [] && b != [] && a[0] == b[0]
    ensures IdsBelow(a, b) <==> IdsBelow(a[1..], b[1..])
  {
    CompareIdSwap(a[0], b[0]);
    IdNotBelowItself(a[0]);
    if IdsBelow(a, b) {
      var k: nat :| BelowAt(a, b, k);
      assert k > 0;
      assert BelowAt(a[1..], b[1..], k - 1);
    }
    if IdsBelow(a[1..], b[1..]) {
      var k: nat :| BelowAt(a[1..], b[1..], k);
      assert forall j :: 0 < j < k + 1 ==> a[j] == a[1..][j - 1] && b[j] == b[1..][j - 1];
      assert BelowAt(a, b, k + 1);
    }
  }

  lemma IdNotBelowItself(a: Identifier)
    ensures !IdBelow(a, a)
  {
    if a.Text? {
      LessTotal(a.s, a.s);
    }
  }

  /** While every numeric identifier fits, the comparison is the standard's precedence. */
  lemma FollowsStandard(v: Version, w: Version)
    requires Fits(v) && Fits(w)
    ensures Compare(v, w) < 0 <==> Below(v, w)
    ensures Compare(v, w) > 0 <==> Below(w, v)
  {
    assert Identifiers(v.pre) == SpecIdentifiers(v.pre);
    assert Identifiers(w.pre) == SpecIdentifiers(w.pre);
    CompareIdsIsBelow(Identifiers(v.pre), Identifiers(w.pre));
    CompareIdsIsBelow(Identifiers(w.pre), Identifiers(v.pre));
    CompareSwap(v, w);
  }

  function Join(parts: seq<string>): string
    requires parts != []
  {
    if |parts| == 1 then parts[0] else parts[0] + "." + Join(parts[1..])
  }

  lemma {:induction false} SplitOne(part: string)
    requires '.' !in part
    ensures Split(part) == [part]
  {
    if part != "" {
      SplitOne(part[1..]);
      assert part == [part[0]] + part[1..];
    }
  }

  lemma {:induction false} SplitFirst(part: string, rest: string)
    requires '.' !in part
    ensures Split(part + "." + rest) == [part] + Split(rest)
  {
    var s := part + "." + rest;
    if part == "" {
      assert s[1..] == rest;
    } else {
      SplitFirst(part[1..], rest);
      assert s[1..] == part[1..] + "." + rest;
      assert part == [part[0]] + part[1..];
    }
  }

  lemma {:induction false} SplitHasNoDots(s: string)
    ensures forall p :: p in Split(s) ==> '.' !in p
  {
    if s != "" {
      SplitHasNoDots(s[1..]);
    }
  }

  lemma {:induction false} SplitJoin(parts: seq<string>)
    requires parts != [] && forall p :: p in parts ==> '.' !in p
    ensures Split(Join(parts)) == parts
  {
    if |parts| == 1 {
      SplitOne(parts[0]);
    } else {
      SplitJoin(parts[1..]);
      SplitFirst(parts[0], Join(parts[1..]));
    }
  }

  lemma FirstMisfit(parts: seq<string>) returns (i: nat)
    requires exists i :: 0 <= i < |parts| && !FitsId(parts[i])
    ensures i < |parts| && !FitsId(parts[i]) && forall j :: 0 <= j < i ==> FitsId(parts[j])
  {
    i := 0;
    while FitsId(parts[i])
      invariant i < |parts| && (forall j :: 0 <= j < i ==> FitsId(parts[j]))
      invariant exists k :: i <= k < |parts| && !FitsId(parts[k])
      decreases |parts| - i
    {
      i := i + 1;
    }
  }

  /** A version with an identifier too large to fit is ranked wrongly against one that fits: it is ranked above
      the version with "-" in that place, and numeric identifiers rank below all others. */
  lemma Misranked(v: Version) returns (w: Version)
    requires !Fits(v)
    ensures Fits(w) && Compare(v, w) > 0 && Below(v, w) && !Below(w, v)
  {
    var parts := Split(v.pre);
    var i := FirstMisfit(parts);
    var with := parts[..i] + ["-"];
    SplitHasNoDots(v.pre);
    SplitJoin(with);
    w := v.(pre := Join(with));
    assert Split(w.pre) == with;
    assert Split("") == [""];
    Ranked(v, w, i);
  }

  lemma {:induction false} CompareAt(a: seq<Identifier>, b: seq<Identifier>, k: nat)
    requires k < |a| && k < |b| && a[..k] == b[..k] && CompareId(a[k], b[k]) != 0
    ensures CompareIds(a, b) == CompareId(a[k], b[k])
    decreases k
  {
    if k > 0 {
      assert a[0] == a[..k][0] == b[..k][0] == b[0];
      CompareIdSwap(a[0], b[0]);
      assert a[1..][..k - 1] == a[..k][1..] && b[1..][..k - 1] == b[..k][1..];
      CompareAt(a[1..], b[1..], k - 1);
    }
  }

  lemma Ranked(v: Version, w: Version, i: nat)
    requires v.pre != "" && w.pre != "" && w == v.(pre := w.pre)
    requires i < |Split(v.pre)| && |Split(w.pre)| == i + 1 && Split(w.pre)[..i] == Split(v.pre)[..i]
    requires !FitsId(Split(v.pre)[i]) && Split(w.pre)[i] == "-"
    ensures Compare(v, w) > 0 && Below(v, w) && !Below(w, v)
  {
    var a, b := Identifiers(v.pre), Identifiers(w.pre);
    var big := Split(v.pre)[i];
    assert !IsDigit("-"[0]);
    assert a[i] == Text(big) && b[i] == Text("-") && IsDigit(big[0]);
    SamePrefix(v.pre, w.pre, i);
    assert Less("-", big);
    LessTotal("-", big);
    CompareAt(a, b, i);
    var x, y := SpecIdentifiers(v.pre), SpecIdentifiers(w.pre);
    assert forall j :: 0 <= j < i ==> x[j] == x[..i][j] && y[j] == y[..i][j];
    assert BelowAt(x, y, i);
    CompareIdsIsBelow(x, y);
    CompareIdsIsBelow(y, x);
    CompareIdsSwap(x, y);
  }

  lemma SamePrefix(p: string, q: string, i: nat)
    requires i <= |Split(p)| && i <= |Split(q)| && Split(p)[..i] == Split(q)[..i]
    ensures Identifiers(p)[..i] == Identifiers(q)[..i]
    ensures SpecIdentifiers(p)[..i] == SpecIdentifiers(q)[..i]
  {
    forall j | 0 <= j < i
      ensures Split(p)[j] == Split(q)[j]
    {
      assert Split(p)[..i][j] == Split(q)[..i][j];
    }
  }

  ghost predicate Agrees(v: Version, w: Version) {
    (Compare(v, w) < 0 <==> Below(v, w)) && (Compare(v, w) > 0 <==> Below(w, v))
  }

  /** The comparison is the standard's precedence exactly for versions whose numeric identifiers all fit. */
  lemma FollowsStandardIff(v: Version)
    ensures Fits(v) <==> forall w :: Fits(w) ==> Agrees(v, w)
  {
    if Fits(v) {
      forall w | Fits(w)
        ensures Agrees(v, w)
      {
        FollowsStandard(v, w);
      }
    } else {
      var w := Misranked(v);
      assert !Agrees(v, w);
    }
  }

  // ---------------------------------------------------------------------------
  // Parsing and rendering

  lemma {:induction false} IndexFirst(a: string, c: char, b: string)
    requires c !in a
    ensures Index(a + [c] + b, c) == |a|
    ensures Index(a, c) == |a|
  {
    if a != "" {
      assert (a + [c] + b)[1..] == a[1..] + [c] + b;
      IndexFirst(a[1..], c, b);
    }
  }

  /** What parsing returns has machine integers and no build metadata. */
  lemma ParsedInRange(s: string)
    requires Parsed(s).Ok?
    ensures var v := Parsed(s).value;
            && 0 <= v.major <= MAX_INT && 0 <= v.minor <= MAX_INT && 0 <= v.patch <= MAX_INT
            && '+' !in v.pre
  {
    var t := Core(s);
    var i := Index(t, '-');
    if i < |t| {
      assert forall k :: i < k < |t| ==> t[k] in t;
      assert forall c :: c in t[i + 1..] ==> c in t;
    }
  }

  lemma AtoiDecimal(n: nat)
    requires n <= MAX_INT
    ensures Atoi(Decimal(n)) == Some(n)
  {
    assert IsDigit(Decimal(n)[0]);
  }

  lemma DecimalHasNone(n: nat, c: char)
    requires !IsDigit(c)
    ensures c !in Decimal(n)
  {
  }

  function Triple(v: Version): string
    requires v.major >= 0 && v.minor >= 0 && v.patch >= 0
  {
    Decimal(v.major) + "." + Decimal(v.minor) + "." + Decimal(v.patch)
  }

  lemma TripleParts(v: Version)
    requires 0 <= v.major <= MAX_INT && 0 <= v.minor <= MAX_INT && 0 <= v.patch <= MAX_INT
    ensures Numbers(Triple(v)) == Ok((v.major, v.minor, v.patch))
    ensures '-' !in Triple(v) && '+' !in Triple(v) && Triple(v) != "" && IsDigit(Triple(v)[0])
    ensures IsDigit(Triple(v)[|Triple(v)| - 1])
  {
    hide Decimal, Atoi, Split;
    var a, b, c := Decimal(v.major), Decimal(v.minor), Decimal(v.patch);
    AtoiDecimal(v.major);
    AtoiDecimal(v.minor);
    AtoiDecimal(v.patch);
    DecimalHasNone(v.major, '.');
    DecimalHasNone(v.minor, '.');
    DecimalHasNone(v.patch, '.');
    SplitFirst(a, b + "." + c);
    assert Triple(v) == a + "." + (b + "." + c);
    SplitFirst(b, c);
    SplitOne(c);
    assert Split(Triple(v)) == [a, b, c];
    assert forall k :: 0 <= k < |Triple(v)| ==> Triple(v)[k] == '.' || IsDigit(Triple(v)[k]);
  }

  lemma {:induction false} TrimRightKeeps(a: string, c: char, b: string)
    requires !IsSpace(c)
    ensures |a| + 1 <= |TrimRight(a + [c] + b)|
    decreases |b|
  {
    var s := a + [c] + b;
    if b != "" && IsSpace(s[|s| - 1]) {
      assert s[..|s| - 1] == a + [c] + b[..|b| - 1];
      TrimRightKeeps(a, c, b[..|b| - 1]);
    }
  }

  lemma TrimSame(s: string)
    requires s != "" && IsDigit(s[0]) && !IsSpace(s[|s| - 1])
    ensures TrimRight(TrimLeft(s)) == s
  {
    assert TrimLeft(s) == s;
  }

  lemma CoreSame(s: string)
    requires s != "" && IsDigit(s[0]) && !IsSpace(s[|s| - 1]) && '+' !in s
    ensures TrimRight(TrimLeft(s)) == s && Core(s) == s
  {
    hide TrimLeft, TrimRight, Index, IsSpace;
    TrimSame(s);
    IndexFirst(s, '+', "");
    assert s[..|s|] == s;
  }

  lemma CoreShorter(s: string)
    requires s != "" && IsDigit(s[0]) && IsSpace(s[|s| - 1])
    ensures |Core(s)| < |s|
  {
    assert TrimLeft(s) == s;
  }

  lemma FromCorePre(t: string)
    ensures FromCore(t).Ok? && FromCore(t).value.pre != "" ==> |t| == Index(t, '-') + 1 + |FromCore(t).value.pre|
  {
    hide Numbers, Index;
  }

  /** A rendered version holds the version's parts, whatever its prerelease. */
  lemma FromCoreRendered(v: Version)
    requires 0 <= v.major <= MAX_INT && 0 <= v.minor <= MAX_INT && 0 <= v.patch <= MAX_INT
    ensures FromCore(Rendered(v)) == Ok(v)
    ensures Rendered(v) != "" && IsDigit(Rendered(v)[0])
    ensures '+' in Rendered(v) <==> '+' in v.pre
    ensures v.pre == "" ==> !IsSpace(Rendered(v)[|Rendered(v)| - 1])
    ensures v.pre != "" ==> Rendered(v)[|Rendered(v)| - 1] == v.pre[|v.pre| - 1]
    ensures v.pre != "" ==> Index(Rendered(v), '-') + 1 + |v.pre| == |Rendered(v)|
  {
    hide Decimal, Numbers, Index;
    var s, t := Rendered(v), Triple(v);
    TripleParts(v);
    if v.pre == "" {
      IndexFirst(t, '-', "");
      assert s == t && t[..|t|] == t;
    } else {
      assert s == t + ['-'] + v.pre;
      IndexFirst(t, '-', v.pre);
      assert s[..|t|] == t && s[|t| + 1..] == v.pre;
    }
  }

  /** Rendering and parsing again gives the version back exactly when its prerelease has no "+" and does not
      end in white space (parsing "1.2.3-a +b" gives one that does). */
  lemma RenderThenParse(v: Version)
    requires 0 <= v.major <= MAX_INT && 0 <= v.minor <= MAX_INT && 0 <= v.patch <= MAX_INT
    ensures Parsed(Rendered(v)) == Ok(v) <==> '+' !in v.pre && (v.pre != "" ==> !IsSpace(v.pre[|v.pre| - 1]))
  {
    hide FromCore, Rendered, Core, TrimLeft, TrimRight, Index, IsSpace;
    var s := Rendered(v);
    FromCoreRendered(v);
    if '+' !in v.pre && (v.pre != "" ==> !IsSpace(v.pre[|v.pre| - 1])) {
      CoreSame(s);
    } else if Parsed(s) == Ok(v) {
      ParsedInRange(s);
      CoreShorter(s);
      CorePrefix(s);
      FromCorePre(Core(s));
      IndexOfPrefix(s, |Core(s)|, '-');
    }
  }

  lemma CorePrefix(s: string)
    requires s != "" && IsDigit(s[0])
    ensures |Core(s)| <= |s| && Core(s) == s[..|Core(s)|]
  {
    assert TrimLeft(s) == s;
  }

  lemma {:induction false} IndexOfPrefix(s: string, n: nat, c: char)
    requires n <= |s|
    ensures Index(s[..n], c) == Min(Index(s, c), n)
    decreases n
  {
    if n > 0 && s[0] != c {
      IndexOfPrefix(s[1..], n - 1, c);
      assert s[..n][1..] == s[1..][..n - 1];
    }
  }

  lemma TrimLeftKeeps(s: string)
    requires s != "" && !IsSpace(s[0])
    ensures TrimLeft(s) == s
  {
  }

  lemma TagIsNoSpace(lead: string, r: string)
    requires lead in {"", "v", "V"} && r != "" && IsDigit(r[0])
    ensures lead + r != "" && !IsSpace((lead + r)[0])
  {
    assert lead == "" ==> lead + r == r;
  }

  lemma TrimTagged(lead: string, r: string, meta: string) returns (rest: string)
    requires lead in {"", "v", "V"} && r != "" && IsDigit(r[0])
    ensures TrimRight(TrimLeft(lead + r + "+" + meta)) == lead + r + ['+'] + rest
  {
    hide TrimLeft, IsSpace, IsDigit;
    var head := lead + r;
    var s := head + ['+'] + meta;
    TagIsNoSpace(lead, r);
    assert s[0] == head[0];
    TrimLeftKeeps(s);
    PlusIsNoSpace();
    TrimRightKeeps(head, '+', meta);
    hide TrimRight;
    var t := TrimRight(s);
    rest := t[|head| + 1..];
    assert t == s[..|t|];
    assert s[..|head| + 1] == head + ['+'];
    assert t == t[..|head| + 1] + rest;
    assert t[..|head| + 1] == s[..|head| + 1];
  }

  lemma PlusIsNoSpace()
    ensures !IsSpace('+')
  {
  }

  lemma UntaggedLead(lead: string, u: string)
    requires lead in {"", "v", "V"} && u != "" && IsDigit(u[0])
    ensures Untagged(lead + u) == u
  {
    if lead == "" {
      assert lead + u == u;
    } else {
      assert (lead + u)[1..] == u;
    }
  }

  lemma WithoutBuildCut(r: string, rest: string)
    requires '+' !in r
    ensures WithoutBuild(r + ['+'] + rest) == r
  {
    hide Index;
    IndexFirst(r, '+', rest);
    assert (r + ['+'] + rest)[..|r|] == r;
  }

  lemma CoreTagged(lead: string, r: string, meta: string)
    requires lead in {"", "v", "V"} && r != "" && IsDigit(r[0]) && '+' !in r
    ensures TrimRight(TrimLeft(lead + r + "+" + meta)) != "" && Core(lead + r + "+" + meta) == r
  {
    hide TrimLeft, TrimRight, Index, Untagged, WithoutBuild, IsDigit;
    var rest := TrimTagged(lead, r, meta);
    var u := r + ['+'] + rest;
    assert lead + r + ['+'] + rest == lead + u;
    assert u[0] == r[0];
    UntaggedLead(lead, u);
    WithoutBuildCut(r, rest);
  }

  /** A leading "v" and build metadata never matter: with them, every prerelease without "+" is read back. */
  lemma TagAndBuildIgnored(v: Version, lead: string, meta: string)
    requires 0 <= v.major <= MAX_INT && 0 <= v.minor <= MAX_INT && 0 <= v.patch <= MAX_INT
    requires lead in {"", "v", "V"} && '+' !in v.pre
    ensures Parsed(lead + Rendered(v) + "+" + meta) == Ok(v)
  {
    hide FromCore, Rendered, Core, TrimLeft, TrimRight, Index;
    FromCoreRendered(v);
    CoreTagged(lead, Rendered(v), meta);
  }

  // ---------------------------------------------------------------------------
  // Which texts are versions

  /** Splitting at the dots loses nothing. */
  lemma {:induction false} JoinSplit(s: string)
    ensures Join(Split(s)) == s
    decreases |s|
  {
    if s != "" {
      JoinSplit(s[1..]);
      var rest := Split(s[1..]);
      if s[0] == '.' {
        assert ([""] + rest)[1..] == rest;
        assert "" + "." + s[1..] == s;
      } else {
        JoinHead(s[0], rest);
        assert [s[0]] + s[1..] == s;
      }
    }
  }

  lemma JoinHead(c: char, parts: seq<string>)
    requires parts != []
    ensures Join([[c] + parts[0]] + parts[1..]) == [c] + Join(parts)
  {
    var all := [[c] + parts[0]] + parts[1..];
    assert all[1..] == parts[1..];
    if |parts| > 1 {
      assert [c] + parts[0] + "." + Join(parts[1..]) == [c] + (parts[0] + "." + Join(parts[1..]));
    }
  }

  /** A machine integer in decimal digits. */
  predicate IsIntText(s: string) {
    s != "" && AllDigits(s) && Value(s) <= 0x7fff_ffff_ffff_ffff
  }

  lemma AtoiIs(s: string)
    requires '-' !in s && '+' !in s
    ensures Atoi(s) == if IsIntText(s) then Some(Value(s)) else None
  {
  }

  lemma PartsHaveNoSigns(t: string)
    requires '-' !in t && '+' !in t
    ensures forall i :: 0 <= i < |Split(t)| ==> '-' !in Split(t)[i] && '+' !in Split(t)[i]
  {
    SplitChars(t);
    forall i | 0 <= i < |Split(t)|
      ensures '-' !in Split(t)[i] && '+' !in Split(t)[i]
    {
      assert Split(t)[i] in Split(t);
    }
  }

  lemma {:induction false} SplitChars(s: string)
    ensures forall p, c :: p in Split(s) && c in p ==> c in s
    decreases |s|
  {
    if s != "" {
      SplitChars(s[1..]);
      assert s == [s[0]] + s[1..];
    }
  }

  /** The numbers of a version: exactly three, between dots, each of decimal digits and at most the largest machine
      integer. "1.2.3.4", "1.2" and "1..3" are none. */
  lemma NumbersIff(t: string)
    requires '-' !in t && '+' !in t
    ensures var p := Split(t);
            Numbers(t) == if |p| != 3 then Err(NotThreeParts)
                          else if IsIntText(p[0]) && IsIntText(p[1]) && IsIntText(p[2])
                          then Ok((Value(p[0]), Value(p[1]), Value(p[2]))) else Err(NotNumeric)
  {
    hide Atoi, IsIntText, Split;
    PartsHaveNoSigns(t);
    var p := Split(t);
    if |p| == 3 {
      AtoiIs(p[0]);
      AtoiIs(p[1]);
      AtoiIs(p[2]);
    }
  }

  predicate AllSpace(s: string) {
    forall i :: 0 <= i < |s| ==> IsSpace(s[i])
  }

  lemma {:induction false} TrimLeftIs(s: string) returns (l: string)
    ensures s == l + TrimLeft(s) && AllSpace(l) && (TrimLeft(s) != "" ==> !IsSpace(TrimLeft(s)[0]))
    decreases |s|
  {
    l := "";
    if s != "" && IsSpace(s[0]) {
      var rest := TrimLeftIs(s[1..]);
      l := [s[0]] + rest;
      assert s == [s[0]] + s[1..];
    }
  }

  lemma {:induction false} TrimRightIs(s: string) returns (r: string)
    ensures s == TrimRight(s) + r && AllSpace(r) && (TrimRight(s) != "" ==> !IsSpace(TrimRight(s)[|TrimRight(s)| - 1]))
    decreases |s|
  {
    r := "";
    if s != "" && IsSpace(s[|s| - 1]) {
      var rest := TrimRightIs(s[..|s| - 1]);
      r := rest + [s[|s| - 1]];
      assert s == s[..|s| - 1] + [s[|s| - 1]];
    }
  }

  /** White space at the ends is cut off, and no other. */
  lemma TrimIs(s: string) returns (l: string, r: string)
    ensures var t := TrimRight(TrimLeft(s));
            && s == l + t + r && AllSpace(l) && AllSpace(r)
            && (t != "" ==> !IsSpace(t[0]) && !IsSpace(t[|t| - 1]))
  {
    hide IsSpace, TrimLeft, TrimRight;
    l := TrimLeftIs(s);
    r := TrimRightIs(TrimLeft(s));
    var t := TrimRight(TrimLeft(s));
    assert s == l + (t + r) == l + t + r;
    assert t != "" ==> t[0] == TrimLeft(s)[0];
  }

  lemma {:induction false} IndexIs(s: string, c: char)
    ensures var i := Index(s, c); if c in s then i < |s| && s[i] == c && c !in s[..i] else i == |s|
  {
    if s != "" && s[0] != c {
      IndexIs(s[1..], c);
      assert s == [s[0]] + s[1..];
    }
  }

  /** How a text is read. White space at its ends, a "v" before it and whatever follows a "+" are cut off; an empty
      text is refused; what follows the first "-" is the prerelease; and what is before must be three
      numbers. */
  lemma ParsedIs(s: string)
    ensures var t := TrimRight(TrimLeft(s));
            var u := if t != "" && (t[0] == 'v' || t[0] == 'V') then t[1..] else t;
            var core := u[..Index(u, '+')];
            var front := core[..Index(core, '-')];
            && '-' !in front && '+' !in front
            && (t == "" ==> Parsed(s) == Err(EmptyVersion))
            && (t != "" && Numbers(front).Err? ==> Parsed(s) == Err(Numbers(front).error))
            && (t != "" && Numbers(front).Ok? ==>
                  var (a, b, c) := Numbers(front).value;
                  Parsed(s) == Ok(Version(a, b, c, if '-' in core then core[|front| + 1..] else "")))
  {
    hide TrimLeft, TrimRight, Numbers, Index;
    var t := TrimRight(TrimLeft(s));
    var core := Core(s);
    IndexIs(core, '-');
    assert forall c :: c in core[..Index(core, '-')] ==> c in core;
  }
}

/** Version parsing and precedence (internal/update/semver.go) against section 11 of Semantic Versioning 2.0.0. */
module SemVer {
  import opened Common

  datatype Version = Version(major: int, minor: int, patch: int, pre: string)

  datatype ParseError = EmptyVersion | NotThreeParts | NotNumeric

  // ---------------------------------------------------------------------------
  // Library functions on strings

  predicate IsSpace(c: char) {
    || '\t' <= c <= '\r' || c == ' ' || c == '\U{0085}' || c == '\U{00A0}' || c == '\U{1680}'
    || '\U{2000}' <= c <= '\U{200A}' || c == '\U{2028}' || c == '\U{2029}' || c == '\U{202F}'
    || c == '\U{205F}' || c == '\U{3000}'
  }

  function TrimLeft(s: string): string {
    if s != "" && IsSpace(s[0]) then TrimLeft(s[1..]) else s
  }

  function TrimRight(s: string): (r: string)
    ensures |r| <= |s| && r == s[..|r|]
  {
    if s != "" && IsSpace(s[|s| - 1]) then TrimRight(s[..|s| - 1]) else s
  }

  /** The position of the first `c`, or the length if there is none. */
  function Index(s: string, c: char): (i: nat)
    ensures i <= |s|
    ensures i < |s| ==> s[i] == c
    ensures c !in s[..i]
  {
    if s == "" || s[0] == c then 0 else 1 + Index(s[1..], c)
  }

  function Split(s: string): (parts: seq<string>)
    ensures |parts| >= 1
  {
    if s == "" then [""]
    else
      var rest := Split(s[1..]);
      if s[0] == '.' then [""] + rest else [[s[0]] + rest[0]] + rest[1..]
  }

  predicate IsDigit(c: char) {
    '0' <= c <= '9'
  }

  predicate AllDigits(s: string) {
    forall i :: 0 <= i < |s| ==> IsDigit(s[i])
  }

  function Value(s: string): nat
    requires AllDigits(s)
  {
    if s == "" then 0 else 10 * Value(s[..|s| - 1]) + (s[|s| - 1] - '0') as int
  }

  /** Decimal conversion with an optional sign, failing outside the 64-bit range. */
  function Atoi(s: string): Option<int> {
    var negative := s != "" && s[0] == '-';
    var digits := if s != "" && (s[0] == '-' || s[0] == '+') then s[1..] else s;
    if digits == "" || !AllDigits(digits) then None
    else
      var n: int := if negative then -(Value(digits) as int) else Value(digits);
      if -MAX_INT - 1 <= n <= MAX_INT then Some(n) else None
  }

  function Decimal(n: nat): (s: string)
    ensures s != "" && AllDigits(s) && Value(s) == n
  {
    if n < 10 then [n as char + '0'] else Decimal(n / 10) + [(n % 10) as char + '0']
  }

  // ---------------------------------------------------------------------------
  // Parsing

  function Untagged(t: string): string {
    if t != "" && (t[0] == 'v' || t[0] == 'V') then t[1..] else t
  }

  function WithoutBuild(t: string): string {
    t[..Index(t, '+')]
  }

  /** The text between the trimmed ends, without the leading "v" and the build metadata. */
  function Core(s: string): string {
    WithoutBuild(Untagged(TrimRight(TrimLeft(s))))
  }

  method ParseVersion(s: string) returns (r: Result<Version, ParseError>)
    ensures r == Parsed(s)
  {
    hide TrimLeft, TrimRight, Index, Split, Atoi;
    var t := TrimRight(TrimLeft(s));
    if t == "" {
      return Err(EmptyVersion);
    }
    if t[0] == 'v' || t[0] == 'V' {
      t := t[1..];
    }
    t := t[..Index(t, '+')];
    var pre := "";
    var i := Index(t, '-');
    if i < |t| {
      pre, t := t[i + 1..], t[..i];
    }
    assert t == Core(s)[..Index(Core(s), '-')];
    var nums := Split(t);
    if |nums| != 3 {
      return Err(NotThreeParts);
    }
    var major, minor, patch := Atoi(nums[0]), Atoi(nums[1]), Atoi(nums[2]);
    if major.None? || minor.None? || patch.None? || major.value < 0 || minor.value < 0 || patch.value < 0 {
      return Err(NotNumeric);
    }
    return Ok(Version(major.value, minor.value, patch.value, pre));
  }

  function Numbers(s: string): Result<(int, int, int), ParseError> {
    var nums := Split(s);
    if |nums| != 3 then Err(NotThreeParts)
    else
      match (Atoi(nums[0]), Atoi(nums[1]), Atoi(nums[2]))
      case (Some(a), Some(b), Some(c)) => if a >= 0 && b >= 0 && c >= 0 then Ok((a, b, c)) else Err(NotNumeric)
      case _ => Err(NotNumeric)
  }

  function FromCore(t: string): Result<Version, ParseError> {
    var i := Index(t, '-');
    match Numbers(t[..i])
    case Err(e) => Err(e)
    case Ok((a, b, c)) => Ok(Version(a, b, c, if i < |t| then t[i + 1..] else ""))
  }

  function Parsed(s: string): Result<Version, ParseError> {
    if TrimRight(TrimLeft(s)) == "" then Err(EmptyVersion) else FromCore(Core(s))
  }

  function Rendered(v: Version): string
    requires v.major >= 0 && v.minor >= 0 && v.patch >= 0
  {
    Decimal(v.major) + "." + Decimal(v.minor) + "." + Decimal(v.patch) + (if v.pre != "" then "-" + v.pre else "")
  }

  // ---------------------------------------------------------------------------
  // Comparing

  datatype Identifier = Num(n: int) | Text(s: string)

  /** Byte order of two texts. */
  predicate Less(a: string, b: string) {
    b != "" && (a == "" || a[0] < b[0] || (a[0] == b[0] && Less(a[1..], b[1..])))
  }

  function IdentifierOf(s: string): Identifier {
    if s != "" && AllDigits(s) && Value(s) <= MAX_INT then Num(Value(s)) else Text(s)
  }

  function CompareId(a: Identifier, b: Identifier): int {
    match (a, b)
    case (Num(m), Num(n)) => if m < n then -1 else if m > n then 1 else 0
    case (Num(_), Text(_)) => -1
    case (Text(_), Num(_)) => 1
    case (Text(s), Text(t)) => if Less(s, t) then -1 else if Less(t, s) then 1 else 0
  }

  function CompareIds(a: seq<Identifier>, b: seq<Identifier>): int {
    if a == [] || b == [] then (if b != [] then -1 else if a != [] then 1 else 0)
    else if CompareId(a[0], b[0]) != 0 then CompareId(a[0], b[0])
    else CompareIds(a[1..], b[1..])
  }

  function Identifiers(pre: string): (ids: seq<Identifier>)
    ensures |ids| == |Split(pre)|
  {
    var parts := Split(pre);
    seq(|parts|, i requires 0 <= i < |parts| => IdentifierOf(parts[i]))
  }

  function ComparePre(a: string, b: string): int {
    if a == "" || b == "" then (if a != "" then -1 else if b != "" then 1 else 0)
    else CompareIds(Identifiers(a), Identifiers(b))
  }

  function Sign(n: int): int {
    if n < 0 then -1 else if n > 0 then 1 else 0
  }

  function Compare(v: Version, w: Version): int {
    if v.major != w.major then Sign(v.major - w.major)
    else if v.minor != w.minor then Sign(v.minor - w.minor)
    else if v.patch != w.patch then Sign(v.patch - w.patch)
    else ComparePre(v.pre, w.pre)
  }

  method IsNumericIdentifier(s: string) returns (n: int, ok: bool)
    ensures IdentifierOf(s) == if ok then Num(n) else Text(s)
  {
    if s == "" {
      return 0, false;
    }
    for i := 0 to |s|
      invariant AllDigits(s[..i])
    {
      if s[i] < '0' || s[i] > '9' {
        assert !IsDigit(s[i]);
        return 0, false;
      }
    }
    assert s[..|s|] == s;
    var r := Atoi(s);
    if r.None? {
      return 0, false;
    }
    return r.value, true;
  }

  method ComparePrerelease(a: string, b: string) returns (c: int)
    ensures c == ComparePre(a, b)
  {
    hide Split, Less, IdentifierOf;
    if a == "" && b == "" {
      return 0;
    }
    if a == "" {
      return 1;
    }
    if b == "" {
      return -1;
    }
    var xs, ys := Split(a), Split(b);
    ghost var ia, ib := Identifiers(a), Identifiers(b);
    var i := 0;
    while i < |xs| && i < |ys|
      invariant i <= |xs| && i <= |ys|
      invariant CompareIds(ia, ib) == CompareIds(ia[i..], ib[i..])
    {
      var aNum, aIsNum := IsNumericIdentifier(xs[i]);
      var bNum, bIsNum := IsNumericIdentifier(ys[i]);
      assert ia[i..][0] == IdentifierOf(xs[i]) && ib[i..][0] == IdentifierOf(ys[i]);
      assert ia[i..][1..] == ia[i + 1..] && ib[i..][1..] == ib[i + 1..];
      if aIsNum && bIsNum {
        if aNum < bNum {
          return -1;
        }
        if aNum > bNum {
          return 1;
        }
      } else if aIsNum != bIsNum {
        if aIsNum {
          return -1;
        }
        return 1;
      } else {
        if Less(xs[i], ys[i]) {
          return -1;
        }
        if Less(ys[i], xs[i]) {
          return 1;
        }
      }
      i := i + 1;
    }
    return if |xs| < |ys| then -1 else if |xs| > |ys| then 1 else 0;
  }

  method CompareVersions(a: string, b: string) returns (r: Result<int, ParseError>)
    ensures Parsed(a).Err? ==> r == Err(Parsed(a).error)
    ensures Parsed(a).Ok? && Parsed(b).Err? ==> r == Err(Parsed(b).error)
    ensures Parsed(a).Ok? && Parsed(b).Ok? ==> r == Ok(Compare(Parsed(a).value, Parsed(b).value))
  {
    var ra := ParseVersion(a);
    if ra.Err? {
      return Err(ra.error);
    }
    var rb := ParseVersion(b);
    if rb.Err? {
      return Err(rb.error);
    }
    var va, vb := ra.value, rb.value;
    if va.major != vb.major {
      return Ok(Sign(va.major - vb.major));
    }
    if va.minor != vb.minor {
      return Ok(Sign(va.minor - vb.minor));
    }
    if va.patch != vb.patch {
      return Ok(Sign(va.patch - vb.patch));
    }
    var c := ComparePrerelease(va.pre, vb.pre);
    return Ok(c);
  }
}

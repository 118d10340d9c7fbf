/** `org.tbull.util.Version`: a four-part version number with an optional
    "special" suffix, its ordering, equality, hash, parser and formatter. */
module Versions {
  import opened JavaLang

  const DOT: JChar := 46
  const DASH: JChar := 45
  const LOWER_V: JChar := 118

  predicate IsDigit(c: JChar) { 48 <= c <= 57 }
  predicate IsLetter(c: JChar) { 65 <= c <= 90 || 97 <= c <= 122 }

  /** The special pattern `[A-Za-z][0-9A-Za-z-]*`, matched against the whole string. */
  predicate IsSpecial(s: JString)
  {
    |s| > 0 && IsLetter(s[0]) && forall k :: 1 <= k < |s| ==> IsLetter(s[k]) || IsDigit(s[k]) || s[k] == DASH
  }

  datatype Version = Version(major: int, minor: int, revision: int, patch: int, special: Option<JString>)

  /** What the constructor admits: non-negative `int`s and a well-formed special. */
  predicate Valid(v: Version)
  {
    0 <= v.major <= MAX_INT && 0 <= v.minor <= MAX_INT && 0 <= v.revision <= MAX_INT && 0 <= v.patch <= MAX_INT &&
    (v.special.Some? ==> IsSpecial(v.special.value))
  }

  /** `new Version(major, minor, revision, patch, special)`. */
  function NewVersion(major: int, minor: int, revision: int, patch: int, special: Option<JString>): (r: Result<Version>)
    requires IsInt32(major) && IsInt32(minor) && IsInt32(revision) && IsInt32(patch)
    ensures r.Err? <==> major < 0 || minor < 0 || revision < 0 || patch < 0 || (special.Some? && !IsSpecial(special.value))
    ensures r.Err? ==> r.error == IllegalArgument
    ensures r.Ok? ==> Valid(r.value) && r.value == Version(major, minor, revision, patch, special)
  {
    if major < 0 || minor < 0 || revision < 0 || patch < 0 then Err(IllegalArgument)
    else if special.Some? && !IsSpecial(special.value) then Err(IllegalArgument)
    else Ok(Version(major, minor, revision, patch, special))
  }

  /** `new Version(major, minor, revision)`: patch 0, no special. */
  function NewVersion3(major: int, minor: int, revision: int): (r: Result<Version>)
    requires IsInt32(major) && IsInt32(minor) && IsInt32(revision)
    ensures r.Err? <==> major < 0 || minor < 0 || revision < 0
    ensures r.Ok? ==> r.value == Version(major, minor, revision, 0, None)
  {
    NewVersion(major, minor, revision, 0, None)
  }

  /** `new Version(major, minor, revision, patch)`: no special. */
  function NewVersion4(major: int, minor: int, revision: int, patch: int): (r: Result<Version>)
    requires IsInt32(major) && IsInt32(minor) && IsInt32(revision) && IsInt32(patch)
    ensures r.Err? <==> major < 0 || minor < 0 || revision < 0 || patch < 0
    ensures r.Ok? ==> r.value == Version(major, minor, revision, patch, None)
  {
    NewVersion(major, minor, revision, patch, None)
  }

  // ---------------------------------------------------------------- ordering

  function Cmp(a: int, b: int): int
  {
    if a < b then -1 else if a == b then 0 else 1
  }

  /** `String.compareTo`: the char difference at the first mismatch, otherwise
      the length difference. */
  function StrCompare(s: JString, t: JString): int
  {
    if s == [] || t == [] then |s| - |t|
    else if s[0] != t[0] then s[0] as int - t[0] as int
    else StrCompare(s[1..], t[1..])
  }

  lemma {:induction false} StrCompareZero(s: JString, t: JString)
    ensures StrCompare(s, t) == 0 <==> s == t
  {
    if s != [] && t != [] && s[0] == t[0] {
      StrCompareZero(s[1..], t[1..]);
      assert s == [s[0]] + s[1..] && t == [t[0]] + t[1..];
    }
  }

  lemma {:induction false} StrCompareFlip(s: JString, t: JString)
    ensures StrCompare(s, t) == -StrCompare(t, s)
  {
    if s != [] && t != [] && s[0] == t[0] {
      StrCompareFlip(s[1..], t[1..]);
    }
  }

  lemma {:induction false} StrCompareTransitive(s: JString, t: JString, u: JString)
    requires StrCompare(s, t) < 0 && StrCompare(t, u) < 0
    ensures StrCompare(s, u) < 0
  {
    if s != [] && t != [] && u != [] && s[0] == t[0] && t[0] == u[0] {
      StrCompareTransitive(s[1..], t[1..], u[1..]);
    }
  }

  /** `compareTo`: lexicographic on major, minor, revision, patch; then a
      version without special ranks above one with a special, and two specials
      compare as strings. */
  function Compare(a: Version, b: Version): int
  {
    if Cmp(a.major, b.major) != 0 then Cmp(a.major, b.major)
    else if Cmp(a.minor, b.minor) != 0 then Cmp(a.minor, b.minor)
    else if Cmp(a.revision, b.revision) != 0 then Cmp(a.revision, b.revision)
    else if Cmp(a.patch, b.patch) != 0 then Cmp(a.patch, b.patch)
    else if a.special.None? then (if b.special.None? then 0 else 1)
    else if b.special.None? then -1
    else StrCompare(a.special.value, b.special.value)
  }

  /** `equals`: field by field, the special compared by `String.equals`. */
  function Equals(a: Version, b: Version): (r: bool)
    ensures r <==> a == b
  {
    a.major == b.major && a.minor == b.minor && a.patch == b.patch && a.revision == b.revision &&
    (if a.special.None? then b.special.None? else b.special.Some? && a.special.value == b.special.value)
  }

  /** `compareTo` is consistent with `equals`. */
  lemma CompareZeroIffEquals(a: Version, b: Version)
    ensures Compare(a, b) == 0 <==> Equals(a, b)
  {
    if a.special.Some? && b.special.Some? {
      StrCompareZero(a.special.value, b.special.value);
    }
  }

  lemma CompareAntisymmetric(a: Version, b: Version)
    ensures Compare(a, b) == -Compare(b, a)
  {
    if a.special.Some? && b.special.Some? {
      StrCompareFlip(a.special.value, b.special.value);
    }
  }

  lemma CompareTransitive(a: Version, b: Version, c: Version)
    requires Compare(a, b) < 0 && Compare(b, c) < 0
    ensures Compare(a, c) < 0
  {
    if a.major == b.major == c.major && a.minor == b.minor == c.minor &&
       a.revision == b.revision == c.revision && a.patch == b.patch == c.patch &&
       a.special.Some? && b.special.Some? && c.special.Some? {
      StrCompareTransitive(a.special.value, b.special.value, c.special.value);
    }
  }

  /** With equal numbers, having a special ranks a version below not having one. */
  lemma SpecialRanksBelowRelease(a: Version, b: Version)
    requires a.major == b.major && a.minor == b.minor && a.revision == b.revision && a.patch == b.patch
    requires a.special.Some? && b.special.None?
    ensures Compare(a, b) < 0 && Compare(b, a) > 0
  {
  }

  /** `isStable()`: the API is stable from the first major version on. */
  function IsStable(v: Version): (r: bool)
    ensures r <==> v.major >= 1
  {
    v.major > 0
  }

  /** Anything ordered at or above a stable version is stable. */
  lemma StableUpwardClosed(a: Version, b: Version)
    requires IsStable(a) && Compare(a, b) <= 0
    ensures IsStable(b)
  {
  }

  // ---------------------------------------------------------------- hashing

  /** `h = 31 * h + x` over `xs`, wrapping to `int` after every step, as Java's
      generated `hashCode()` and `String.hashCode()` compute. */
  function Hash31(h: int, xs: seq<int>): int
    decreases |xs|
  {
    if xs == [] then h else Hash31(ToInt32(31 * h + xs[0]), xs[1..])
  }

  /** The same polynomial over unbounded integers. */
  function Poly31(h: int, xs: seq<int>): int
    decreases |xs|
  {
    if xs == [] then h else Poly31(31 * h + xs[0], xs[1..])
  }

  /** Wrapping at every step is wrapping the exact polynomial once, from any
      starting value congruent modulo 2^32. */
  lemma {:induction false} Hash31Wraps(h: int, h': int, xs: seq<int>)
    requires IsInt32(h) && (h - h') % 0x1_0000_0000 == 0
    ensures Hash31(h, xs) == ToInt32(Poly31(h', xs))
    decreases |xs|
  {
    if xs == [] {
      var q := (h - h') / 0x1_0000_0000;
      assert h' == h + 0x1_0000_0000 * (-q);
      ToInt32Periodic(h, -q);
    } else {
      var y := 31 * h + xs[0];
      var y' := 31 * h' + xs[0];
      var q := (h - h') / 0x1_0000_0000;
      var q2 := (ToInt32(y) - y) / 0x1_0000_0000;
      assert ToInt32(y) - y' == 0x1_0000_0000 * (31 * q + q2);
      Hash31Wraps(ToInt32(y), y', xs[1..]);
    }
  }

  lemma ToInt32Periodic(x: int, k: int)
    ensures ToInt32(x + 0x1_0000_0000 * k) == ToInt32(x)
  {
  }

  /** `String.hashCode`. */
  function StringHash(s: JString): (h: int)
  {
    Hash31(0, seq(|s|, k requires 0 <= k < |s| => s[k] as int))
  }

  /** `hashCode()`, in the generated order major, minor, patch, revision, special. */
  function HashCode(v: Version): (h: int)
  {
    Hash31(1, [v.major, v.minor, v.patch, v.revision, if v.special.None? then 0 else StringHash(v.special.value)])
  }

  /** Versions that `compareTo` ranks equal have equal hash codes. */
  lemma EqualOrderEqualHash(a: Version, b: Version)
    requires Compare(a, b) == 0
    ensures HashCode(a) == HashCode(b)
  {
    CompareZeroIffEquals(a, b);
  }

  /** The hash is `31^5 + 31^4 major + 31^3 minor + 31^2 patch + 31 revision
      + hash(special)` taken modulo 2^32 into the `int` range. */
  lemma HashCodeClosedForm(v: Version)
    ensures IsInt32(HashCode(v))
    ensures HashCode(v) == ToInt32(28629151 + 923521 * v.major + 29791 * v.minor + 961 * v.patch + 31 * v.revision +
                                   (if v.special.None? then 0 else StringHash(v.special.value)))
  {
    var xs := [v.major, v.minor, v.patch, v.revision, if v.special.None? then 0 else StringHash(v.special.value)];
    Hash31Wraps(1, 1, xs);
    var p1 := 31 + xs[0];
    var p2 := 31 * p1 + xs[1];
    var p3 := 31 * p2 + xs[2];
    var p4 := 31 * p3 + xs[3];
    var p5 := 31 * p4 + xs[4];
    assert Poly31(p5, []) == p5;
    assert Poly31(p4, [xs[4]]) == p5;
    assert Poly31(p3, xs[3..]) == p5;
    assert Poly31(p2, xs[2..]) == p5;
    assert Poly31(p1, xs[1..]) == p5;
  }

  // ---------------------------------------------------------------- formatting

  function DigitChar(d: int): (c: JChar)
    requires 0 <= d < 10
    ensures IsDigit(c) && c as int - 48 == d
  {
    (48 + d) as JChar
  }

  /** `StringBuilder.append(int)` for a non-negative `int`: decimal digits, no
      leading zero. */
  function Decimal(n: nat): (s: JString)
    ensures |s| > 0 && forall k :: 0 <= k < |s| ==> IsDigit(s[k])
  {
    if n < 10 then [DigitChar(n)] else Decimal(n / 10) + [DigitChar(n % 10)]
  }

  /** `format(sb)`: appends "major.minor.revision.patch" and then the special,
      with no separator before the special. */
  function Format(prefix: JString, v: Version): JString
    requires Valid(v)
  {
    var tail := if v.special.Some? then v.special.value else [];
    prefix + (Decimal(v.major) + ([DOT] + Decimal(v.minor) + ([DOT] + Decimal(v.revision) + ([DOT] + Decimal(v.patch) + tail))))
  }

  function ToString(v: Version): JString
    requires Valid(v)
  {
    Format([], v)
  }

  function ToTagString(v: Version): JString
    requires Valid(v)
  {
    Format([LOWER_V], v)
  }

  // ---------------------------------------------------------------- parsing

  /** The value of a run of decimal digits (leading zeros allowed). */
  function DigitsValue(s: JString): int
  {
    if s == [] then 0 else 10 * DigitsValue(s[..|s| - 1]) + (s[|s| - 1] as int - 48)
  }

  lemma {:induction false} DecimalValue(n: nat)
    ensures DigitsValue(Decimal(n)) == n
  {
    if n >= 10 {
      DecimalValue(n / 10);
      var s := Decimal(n);
      assert s[..|s| - 1] == Decimal(n / 10);
    }
  }

  /** `Integer.parseInt` on a digit run: a `NumberFormatException` (an
      `IllegalArgumentException`) beyond `Integer.MAX_VALUE`. */
  function ParseInt(s: JString): (r: Result<int>)
    ensures r.Ok? <==> IsInt32(DigitsValue(s))
    ensures r.Ok? ==> r.value == DigitsValue(s)
    ensures r.Err? ==> r.error == IllegalArgument
  {
    var n := DigitsValue(s);
    if !IsInt32(n) then Err(IllegalArgument) else Ok(n)
  }

  /** The length of the run of digits `s` starts with. */
  function DigitRun(s: JString): (n: nat)
    ensures n <= |s|
    ensures n < |s| ==> !IsDigit(s[n])
  {
    if s != [] && IsDigit(s[0]) then 1 + DigitRun(s[1..]) else 0
  }

  lemma {:induction false} DigitRunOf(d: JString, rest: JString)
    requires forall k :: 0 <= k < |d| ==> IsDigit(d[k])
    requires rest == [] || !IsDigit(rest[0])
    ensures DigitRun(d + rest) == |d|
  {
    if d != [] {
      DigitRunOf(d[1..], rest);
      assert (d + rest)[1..] == d[1..] + rest;
    } else {
      assert d + rest == rest;
    }
  }

  /** What a successful match of the version pattern captures: the digit runs
      present (one to four) and the special. */
  datatype Captures = Captures(numbers: seq<JString>, special: Option<JString>)

  /** Up to `count` groups `(?:\.(\d+))?`, and what follows them. A '.' that is
      not followed by a digit can match nothing later, so it ends the match. */
  function DotGroups(t: JString, count: nat): (r: Option<(seq<JString>, JString)>)
    ensures r.Some? ==> |r.value.0| <= count && |r.value.1| <= |t|
  {
    if count == 0 || t == [] || t[0] != DOT then Some(([], t))
    else
      var n := DigitRun(t[1..]);
      if n == 0 then None
      else match DotGroups(t[1 + n..], count - 1)
        case None => None
        case Some((groups, rest)) => Some(([t[1..1 + n]] + groups, rest))
  }

  /** `-?([A-Za-z][0-9A-Za-z-]*)?` up to the end of the input. */
  function SpecialTail(t: JString): (r: Option<Option<JString>>)
    ensures r.Some? && r.value.Some? ==> IsSpecial(r.value.value)
  {
    var u := if t != [] && t[0] == DASH then t[1..] else t;
    if u == [] then Some(None)
    else if IsSpecial(u) then Some(Some(u))
    else None
  }

  /** `v?(\d+)(?:\.(\d+))?(?:\.(\d+))?(?:\.(\d+))?-?([A-Za-z][0-9A-Za-z-]*)?`
      matched against the whole input. Each digit run is maximal and the '-' is
      taken when present, since nothing after a run can start with a digit and a
      special cannot start with '-'; so no backtracking changes the outcome. */
  function Match(s: JString): (r: Option<Captures>)
    ensures r.Some? ==> 1 <= |r.value.numbers| <= 4
  {
    var t := if s != [] && s[0] == LOWER_V then s[1..] else s;
    var n := DigitRun(t);
    if n == 0 then None
    else match DotGroups(t[n..], 3)
      case None => None
      case Some((groups, rest)) =>
        match SpecialTail(rest)
        case None => None
        case Some(special) => Some(Captures([t[..n]] + groups, special))
  }

  /** The group at `k`, parsed; a missing group is 0. */
  function Group(numbers: seq<JString>, k: nat): (r: Result<int>)
    ensures r.Ok? ==> IsInt32(r.value)
  {
    if k < |numbers| then ParseInt(numbers[k]) else Ok(0)
  }

  /** The numbers of a match, parsed in order, then the constructor. */
  function FromCaptures(c: Captures): (r: Result<Version>)
    ensures r.Err? ==> r.error == IllegalArgument
    ensures r.Ok? ==> Valid(r.value)
  {
    var a := Group(c.numbers, 0);
    if a.Err? then Err(a.error) else
    var b := Group(c.numbers, 1);
    if b.Err? then Err(b.error) else
    var x := Group(c.numbers, 2);
    if x.Err? then Err(x.error) else
    var d := Group(c.numbers, 3);
    if d.Err? then Err(d.error) else
    NewVersion(a.value, b.value, x.value, d.value, c.special)
  }

  /** `Version.parse`: `IllegalArgumentException` when the input does not match
      or a number exceeds `int`. */
  function Parse(s: JString): (r: Result<Version>)
    ensures r.Err? ==> r.error == IllegalArgument
    ensures r.Ok? ==> Valid(r.value)
    ensures Match(s).None? ==> r.Err?
  {
    match Match(s)
    case None => Err(IllegalArgument)
    case Some(c) => FromCaptures(c)
  }

  /** A leading 'v' changes nothing. */
  lemma ParseIgnoresLeadingV(s: JString)
    requires s != [] && IsDigit(s[0])
    ensures Parse([LOWER_V] + s) == Parse(s)
  {
    assert ([LOWER_V] + s)[1..] == s;
  }

  /** One `.digits` group, followed by something that is not a digit. */
  lemma DotGroupStep(d: JString, rest: JString, count: nat)
    requires |d| > 0 && forall k :: 0 <= k < |d| ==> IsDigit(d[k])
    requires rest == [] || !IsDigit(rest[0])
    ensures DotGroups([DOT] + d + rest, count + 1) ==
              match DotGroups(rest, count)
              case None => None
              case Some((groups, after)) => Some(([d] + groups, after))
  {
    var t := [DOT] + d + rest;
    assert t[1..] == d + rest;
    DigitRunOf(d, rest);
    assert t[1 + |d|..] == rest;
    assert t[1..1 + |d|] == d;
  }

  /** What follows the numbers of a formatted version. */
  lemma SpecialTailOf(special: Option<JString>)
    requires special.Some? ==> IsSpecial(special.value)
    ensures SpecialTail(if special.Some? then special.value else []) == Some(special)
  {
  }

  /** A match of digits, then groups, then a tail. */
  lemma MatchOf(d: JString, rest: JString, groups: seq<JString>, tail: JString, special: Option<JString>)
    requires |d| > 0 && forall k :: 0 <= k < |d| ==> IsDigit(d[k])
    requires rest == [] || !IsDigit(rest[0])
    requires DotGroups(rest, 3) == Some((groups, tail)) && SpecialTail(tail) == Some(special)
    ensures Match(d + rest) == Some(Captures([d] + groups, special))
  {
    var s := d + rest;
    DigitRunOf(d, rest);
    assert s[|d|..] == rest && s[..|d|] == d;
    assert s[0] != LOWER_V;
  }

  /** Digits and groups followed by a tail that is no special: no match. */
  lemma MatchFailsOnTail(d: JString, rest: JString, groups: seq<JString>, tail: JString)
    requires |d| > 0 && forall k :: 0 <= k < |d| ==> IsDigit(d[k])
    requires rest == [] || !IsDigit(rest[0])
    requires DotGroups(rest, 3) == Some((groups, tail)) && SpecialTail(tail).None?
    ensures Match(d + rest).None?
  {
    var s := d + rest;
    DigitRunOf(d, rest);
    assert s[|d|..] == rest;
    assert s[0] != LOWER_V;
  }

  /** The three `.digits` groups of a formatted version. */
  lemma ThreeGroups(d2: JString, d3: JString, d4: JString, tail: JString)
    requires |d2| > 0 && forall k :: 0 <= k < |d2| ==> IsDigit(d2[k])
    requires |d3| > 0 && forall k :: 0 <= k < |d3| ==> IsDigit(d3[k])
    requires |d4| > 0 && forall k :: 0 <= k < |d4| ==> IsDigit(d4[k])
    requires tail == [] || !IsDigit(tail[0])
    ensures DotGroups([DOT] + d2 + ([DOT] + d3 + ([DOT] + d4 + tail)), 3) == Some(([d2, d3, d4], tail))
  {
    var r3 := [DOT] + d4 + tail;
    var r2 := [DOT] + d3 + r3;
    assert DotGroups(tail, 0) == Some(([], tail));
    DotGroupStep(d4, tail, 0);
    assert [d4] + [] == [d4];
    DotGroupStep(d3, r3, 1);
    assert [d3] + [d4] == [d3, d4];
    DotGroupStep(d2, r2, 2);
    assert [d2] + [d3, d4] == [d2, d3, d4];
  }

  /** The text of four digit runs and a tail matches with exactly those captures. */
  lemma MatchNumbers(d1: JString, d2: JString, d3: JString, d4: JString, special: Option<JString>)
    requires |d1| > 0 && forall k :: 0 <= k < |d1| ==> IsDigit(d1[k])
    requires |d2| > 0 && forall k :: 0 <= k < |d2| ==> IsDigit(d2[k])
    requires |d3| > 0 && forall k :: 0 <= k < |d3| ==> IsDigit(d3[k])
    requires |d4| > 0 && forall k :: 0 <= k < |d4| ==> IsDigit(d4[k])
    requires special.Some? ==> IsSpecial(special.value)
    ensures var tail := if special.Some? then special.value else [];
            Match(d1 + ([DOT] + d2 + ([DOT] + d3 + ([DOT] + d4 + tail)))) == Some(Captures([d1, d2, d3, d4], special))
  {
    var tail: JString := if special.Some? then special.value else [];
    var r1 := [DOT] + d2 + ([DOT] + d3 + ([DOT] + d4 + tail));
    ThreeGroups(d2, d3, d4, tail);
    SpecialTailOf(special);
    MatchOf(d1, r1, [d2, d3, d4], tail, special);
    assert [d1] + [d2, d3, d4] == [d1, d2, d3, d4];
  }

  /** Four captured runs with the version's values give back the version. */
  lemma FromFourNumbers(c: Captures, v: Version)
    requires Valid(v) && |c.numbers| == 4 && c.special == v.special
    requires DigitsValue(c.numbers[0]) == v.major && DigitsValue(c.numbers[1]) == v.minor
    requires DigitsValue(c.numbers[2]) == v.revision && DigitsValue(c.numbers[3]) == v.patch
    ensures FromCaptures(c) == Ok(v)
  {
  }

  /** Parsing the output of `toString()` gives back an equal version. */
  lemma ParseToString(v: Version)
    requires Valid(v)
    ensures Parse(ToString(v)) == Ok(v)
  {
    var d1, d2, d3, d4 := Decimal(v.major), Decimal(v.minor), Decimal(v.revision), Decimal(v.patch);
    var tail: JString := if v.special.Some? then v.special.value else [];
    assert ToString(v) == d1 + ([DOT] + d2 + ([DOT] + d3 + ([DOT] + d4 + tail)));
    MatchNumbers(d1, d2, d3, d4, v.special);
    DecimalValue(v.major);
    DecimalValue(v.minor);
    DecimalValue(v.revision);
    DecimalValue(v.patch);
    FromFourNumbers(Captures([d1, d2, d3, d4], v.special), v);
  }

  /** The same for `toTagString()`. */
  lemma ParseToTagString(v: Version)
    requires Valid(v)
    ensures Parse(ToTagString(v)) == Ok(v)
  {
    assert ToTagString(v) == [LOWER_V] + ToString(v);
    ParseIgnoresLeadingV(ToString(v));
    ParseToString(v);
  }

  /** A trailing '-' without a special is accepted: "1.4-" is 1.4.0.0. */
  lemma ParseTrailingDash()
    ensures Parse([49, DOT, 52, DASH]) == Ok(Version(1, 4, 0, 0, None))
  {
    var s: JString := [49, DOT, 52, DASH];
    assert s == [49] + [DOT, 52, DASH];
    DigitRunOf([49], [DOT, 52, DASH]);
    assert DigitRun(s) == 1;
    assert DotGroups([DASH], 2) == Some(([], [DASH]));
    DotGroupStep([52], [DASH], 2);
    assert [DOT] + [52] + [DASH] == s[1..];
    assert [[52]] + [] == [[52]];
    assert DotGroups(s[1..], 3) == Some(([[52]], [DASH]));
    assert s[..1] == [49];
    assert SpecialTail([DASH]) == Some(None);
    assert [[49]] + [[52]] == [[49], [52]];
    assert Match(s) == Some(Captures([[49], [52]], None));
    assert DigitsValue([49]) == 1;
    assert DigitsValue([52]) == 4;
  }

  /** A fifth number is not part of the pattern. */
  lemma ParseRejectsFiveNumbers()
    ensures Parse([49, DOT, 50, DOT, 51, DOT, 52, DOT, 53]).Err?
  {
    var tail: JString := [DOT, 53];
    var r1 := [DOT] + [50] + ([DOT] + [51] + ([DOT] + [52] + tail));
    assert [49] + r1 == [49, DOT, 50, DOT, 51, DOT, 52, DOT, 53];
    ThreeGroups([50], [51], [52], tail);
    assert !IsSpecial(tail);
    MatchFailsOnTail([49], r1, [[50], [51], [52]], tail);
  }

  /** The object: immutable numbers plus the two string caches that `toString()`
      and `toTagString()` fill on first use. */
  class VersionObject {
    const value: Version
    var tostringCache: Option<JString>
    var totagCache: Option<JString>

    ghost predicate CachesValid()
      reads this
    {
      Valid(value) &&
      (tostringCache.Some? ==> tostringCache.value == ToString(value)) &&
      (totagCache.Some? ==> totagCache.value == ToTagString(value))
    }

    constructor (v: Version)
      requires Valid(v)
      ensures value == v && CachesValid() && tostringCache.None? && totagCache.None?
    {
      value := v;
      tostringCache := None;
      totagCache := None;
    }

    method ToStringCached() returns (s: JString)
      requires CachesValid()
      modifies this
      ensures CachesValid() && s == ToString(value)
      ensures tostringCache == Some(s) && totagCache == old(totagCache)
    {
      if tostringCache.None? {
        tostringCache := Some(Format([], value));
      }
      s := tostringCache.value;
    }

    method ToTagStringCached() returns (s: JString)
      requires CachesValid()
      modifies this
      ensures CachesValid() && s == ToTagString(value)
      ensures totagCache == Some(s) && tostringCache == old(tostringCache)
    {
      if totagCache.None? {
        totagCache := Some(Format([LOWER_V], value));
      }
      s := totagCache.value;
    }
  }
}

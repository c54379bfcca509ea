/**
 * Semantic versions as the core uses them: a major.minor.patch triple,
 * ordered lexicographically, written as three canonical decimal numerals
 * separated by dots.
 */
module Semver {
  import opened Text

  datatype Version = Version(major: nat, minor: nat, patch: nat)

  /**
   * Strict lexicographic order on (major, minor, patch): the major version
   * decides first, then the minor, then the patch.
   */
  predicate Less(a: Version, b: Version): (r: bool)
    ensures r ==> a != b
    ensures a.major != b.major ==> (r <==> a.major < b.major)
    ensures a.major == b.major && a.minor != b.minor ==> (r <==> a.minor < b.minor)
  {
    a.major < b.major
    || (a.major == b.major && a.minor < b.minor)
    || (a.major == b.major && a.minor == b.minor && a.patch < b.patch)
  }

  /** Exactly one of `a < b`, `a == b`, `b < a` holds. */
  lemma Trichotomy(a: Version, b: Version)
    ensures Less(a, b) || a == b || Less(b, a)
    ensures !(Less(a, b) && a == b) && !(Less(a, b) && Less(b, a)) && !(a == b && Less(b, a))
  {
  }

  lemma LessTransitive(a: Version, b: Version, c: Version)
    requires Less(a, b) && Less(b, c)
    ensures Less(a, c)
  {
  }

  /** The canonical text "major.minor.patch". */
  function ToString(v: Version): (s: string)
    ensures 0 < |s| && IsDigit(s[0])
    ensures forall k :: 0 <= k < |s| ==> IsVersionChar(s[k])
  {
    DecimalString(v.major) + "." + DecimalString(v.minor) + "." + DecimalString(v.patch)
  }

  /** A numeral component: non-empty digits without a leading zero. */
  function Numeral(s: string): (r: Option<nat>)
    ensures r.Some? <==> Canonical(s)
    ensures r.Some? ==> DecimalString(r.value) == s
  {
    if Canonical(s) then
      DecimalCanonical(s);
      Some(DecimalValue(s))
    else None
  }

  /** A text with a dot at `i` and another `j + 1` places later is its three parts joined by dots. */
  lemma Rejoin(s: string, i: nat, j: nat)
    requires i < |s| && s[i] == '.'
    requires j < |s[i + 1..]| && s[i + 1..][j] == '.'
    ensures s == s[..i] + "." + s[i + 1..][..j] + "." + s[i + 1..][j + 1..]
  {
    var rest := s[i + 1..];
    assert rest == rest[..j] + "." + rest[j + 1..];
    assert s == s[..i] + "." + rest;
  }

  /**
   * Parses exactly three dot-separated numerals. Anything else (two parts,
   * four parts, an empty part, a leading zero, any other character) fails.
   */
  function Parse(s: string): (r: Option<Version>)
    ensures r.Some? ==> ToString(r.value) == s
  {
    match IndexOf(s, '.')
    case None => None
    case Some(i) =>
      var rest := s[i + 1..];
      match IndexOf(rest, '.')
      case None => None
      case Some(j) =>
        var major, minor, patch := Numeral(s[..i]), Numeral(rest[..j]), Numeral(rest[j + 1..]);
        if major.Some? && minor.Some? && patch.Some? then
          Rejoin(s, i, j);
          Some(Version(major.value, minor.value, patch.value))
        else None
  }

  /** Dots split where the digits of the first component end. */
  lemma IndexOfAfterDigits(x: string, y: string)
    requires AllDigits(x)
    ensures IndexOf(x + "." + y, '.') == Some(|x|)
  {
    var s := x + "." + y;
    forall k | 0 <= k < |x| ensures s[k] != '.' {
      assert s[k] == x[k];
    }
    IndexOfFirst(s, '.', |x|);
  }

  /** The two sides of a dot are recovered by slicing around it. */
  lemma Dotted(x: string, y: string)
    ensures (x + "." + y)[..|x|] == x && (x + "." + y)[|x| + 1..] == y
  {
  }

  /** Three canonical numerals joined by dots parse to their values. */
  lemma ParseJoined(a: string, b: string, c: string)
    requires Canonical(a) && Canonical(b) && Canonical(c)
    ensures Parse(a + "." + b + "." + c) == Some(Version(DecimalValue(a), DecimalValue(b), DecimalValue(c)))
  {
    var t := b + "." + c;
    var s := a + "." + t;
    assert s == a + "." + b + "." + c;
    IndexOfAfterDigits(a, t);
    Dotted(a, t);
    IndexOfAfterDigits(b, c);
    Dotted(b, c);
  }

  /** Rendering then parsing gives the version back. */
  lemma ParseToString(v: Version)
    ensures Parse(ToString(v)) == Some(v)
  {
    ParseJoined(DecimalString(v.major), DecimalString(v.minor), DecimalString(v.patch));
  }
}

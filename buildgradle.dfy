/**
 * The build-script (`build.gradle`) dialect: the four line functions that
 * find and rewrite `versionCode N` and `versionName "X.Y.Z"`, the
 * first-occurrence scan shared by both build-script document types, and
 * the `BuildGradleContent` document.
 */
module BuildGradle {
  import opened Text
  import opened Semver
  import opened Errors
  import opened VersionState
  import opened Scanning

  const CodeKey: string := "versionCode"
  const NameKey: string := "versionName"

  // ---------------------------------------------------------------------
  // versionCode\s+(\d+)

  /** Both keywords start with the only `v` they contain. */
  lemma KeyStartsOnce()
    ensures CodeKey[0] == 'v' && forall m :: 0 < m < |CodeKey| ==> CodeKey[m] != 'v'
    ensures NameKey[0] == 'v' && forall m :: 0 < m < |NameKey| ==> NameKey[m] != 'v'
  {
  }

  /** The pattern `versionCode\s+\d+` matches from position `i` of `s`. */
  predicate CodeAt(s: string, i: nat) {
    OccursAt(s, CodeKey, i) &&
    var d := RunEnd(s, i + |CodeKey|, IsSpace);
    i + |CodeKey| < d < |s| && IsDigit(s[d])
  }

  /** The span of the `versionCode` match that starts at `i`: white space, then the whole digit run. */
  function CodeSpanAt(line: string, i: nat): (m: Span)
    requires CodeAt(line, i)
    ensures m.start == i && i + |CodeKey| < m.valueStart < m.valueEnd == m.end <= |line|
    ensures forall k :: i + |CodeKey| <= k < m.valueStart ==> IsSpace(line[k])
    ensures AllDigits(line[m.valueStart..m.valueEnd])
    ensures m.end < |line| ==> !IsDigit(line[m.end])
  {
    var vs := RunEnd(line, i + |CodeKey|, IsSpace);
    var ve := RunEnd(line, vs, IsDigit);
    Span(i, vs, ve, ve)
  }

  /** The leftmost match of `versionCode\s+(\d+)`. */
  function FindCode(line: string): (r: Option<Span>)
    ensures r.None? <==> Leftmost(line, CodeAt, 0).None?
    ensures r.Some? ==> Leftmost(line, CodeAt, 0) == Some(r.value.start)
    ensures r.Some? ==> CodeAt(line, r.value.start) && r.value == CodeSpanAt(line, r.value.start)
  {
    match Leftmost(line, CodeAt, 0)
    case None => None
    case Some(i) => Some(CodeSpanAt(line, i))
  }

  /** The captured digits fit in a `u32`, so that `parse::<u32>().unwrap()` does not panic. */
  predicate CodeFits(line: string) {
    match FindCode(line)
    case None => true
    case Some(m) => DecimalValue(line[m.valueStart..m.valueEnd]) <= U32_MAX
  }

  /** `parse_version_code_line`: the build number after the leftmost `versionCode` and white space. */
  function ParseVersionCodeLine(line: string): (r: Option<U32>)
    requires CodeFits(line)
    ensures r.Some? <==> FindCode(line).Some?
    ensures r.Some? ==> var m := FindCode(line).value;
      r.value == DecimalValue(line[m.valueStart..m.valueEnd])
  {
    match FindCode(line)
    case None => None
    case Some(m) => Some(DecimalValue(line[m.valueStart..m.valueEnd]))
  }

  /**
   * `replace_version_code`: the leftmost `versionCode\s+\d+` becomes
   * `versionCode N`; text before and after it is kept.
   */
  function ReplaceVersionCode(line: string, code: U32): (r: string)
    requires CodeFits(line)
    ensures FindCode(line).None? ==> r == line
    ensures FindCode(line).Some? ==> var m := FindCode(line).value;
      r == line[..m.start] + CodeKey + " " + DecimalString(code) + line[m.end..]
  {
    match FindCode(line)
    case None => line
    case Some(m) => line[..m.start] + CodeKey + " " + DecimalString(code) + line[m.end..]
  }

  /** Only the text before a `versionCode` keyword decides whether a match starts earlier. */
  lemma CodeAtStable(a: string, b: string, i: nat, j: nat)
    requires OccursAt(a, CodeKey, i) && OccursAt(b, CodeKey, i)
    requires forall k :: 0 <= k < i ==> a[k] == b[k]
    requires j < i
    ensures CodeAt(a, j) == CodeAt(b, j)
  {
    assert a[i] == CodeKey[0] == b[i];
    if i < j + |CodeKey| {
      KeyStartsOnce();
      OccursBlocked(a, CodeKey, j, i);
      OccursBlocked(b, CodeKey, j, i);
    } else {
      assert OccursAt(a, CodeKey, j) == OccursAt(b, CodeKey, j);
      if OccursAt(a, CodeKey, j) {
        RunEndAgree(a, b, j + |CodeKey|, IsSpace, i);
      }
    }
  }

  /** A leftmost `versionCode` match stays leftmost when only the text from it onwards changes. */
  lemma CodeLeftmostKept(a: string, b: string, i: nat)
    requires Leftmost(a, CodeAt, 0) == Some(i)
    requires CodeAt(b, i)
    requires forall k :: 0 <= k < i ==> a[k] == b[k]
    ensures Leftmost(b, CodeAt, 0) == Some(i)
  {
    forall j | 0 <= j <= i ensures CodeAt(a, j) == CodeAt(b, j) {
      if j < i {
        CodeAtStable(a, b, i, j);
      }
    }
    LeftmostAgree(a, b, CodeAt, i);
  }

  /** Where the parts of `versionCode N` written after `pre` land, character by character. */
  lemma CodeText(pre: string, d: string, rest: string)
    requires AllDigits(d)
    requires rest != [] ==> !IsDigit(rest[0])
    ensures var out := pre + CodeKey + " " + d + rest;
      var vs := |pre| + |CodeKey| + 1;
      && OccursAt(out, CodeKey, |pre|) && IsSpace(out[vs - 1])
      && (forall k :: 0 <= k < |pre| ==> out[k] == pre[k])
      && (forall k :: vs <= k < vs + |d| ==> IsDigit(out[k]))
      && (vs + |d| < |out| ==> !IsDigit(out[vs + |d|]))
      && out[vs..vs + |d|] == d
  {
    var out := pre + CodeKey + " " + d + rest;
    var i := |pre|;
    var key := CodeKey + " ";
    assert out == pre + key + d + rest;
    Pieces(pre, key, d, rest);
    assert forall k :: 0 <= k < |CodeKey| ==> out[i + k] == key[k] == CodeKey[k];
    assert out[i + |CodeKey|] == key[|CodeKey|];
  }

  /** The text `versionCode N` written after `pre` is a match whose captured digits are exactly `N`. */
  lemma CodeLayout(pre: string, d: string, rest: string)
    requires 0 < |d| && AllDigits(d)
    requires rest != [] ==> !IsDigit(rest[0])
    ensures var out := pre + CodeKey + " " + d + rest;
      && CodeAt(out, |pre|)
      && (forall k :: 0 <= k < |pre| ==> out[k] == pre[k])
      && var m := CodeSpanAt(out, |pre|);
      && m.valueStart == |pre| + |CodeKey| + 1 && m.valueEnd == m.valueStart + |d|
      && out[m.valueStart..m.valueEnd] == d
  {
    var out := pre + CodeKey + " " + d + rest;
    var vs := |pre| + |CodeKey| + 1;
    CodeText(pre, d, rest);
    RunEndUnique(out, vs - 1, IsSpace, vs);
    RunEndUnique(out, vs, IsDigit, vs + |d|);
  }

  /** Re-parsing a rewritten `versionCode` line gives the new build number. */
  lemma ReplaceCodeRoundTrip(line: string, code: U32)
    requires CodeFits(line)
    requires ParseVersionCodeLine(line).Some?
    ensures CodeFits(ReplaceVersionCode(line, code))
    ensures ParseVersionCodeLine(ReplaceVersionCode(line, code)) == Some(code)
  {
    var m := FindCode(line).value;
    var d := DecimalString(code);
    var out := ReplaceVersionCode(line, code);
    var pre := line[..m.start];
    assert out == pre + CodeKey + " " + d + line[m.end..];
    CodeLayout(pre, d, line[m.end..]);
    CodeLeftmostKept(line, out, m.start);
    var m' := CodeSpanAt(out, m.start);
    assert FindCode(out) == Some(m');
    assert out[m'.valueStart..m'.valueEnd] == d;
  }

  // ---------------------------------------------------------------------
  // versionName\s+"([\d.]+)"

  /** The pattern `"[\d.]+"` matches from position `q` of `s`. */
  predicate QuotedAt(s: string, q: nat) {
    q < |s| && s[q] == '"' &&
    var e := RunEnd(s, q + 1, IsVersionChar);
    q + 1 < e < |s| && s[e] == '"'
  }

  /** The pattern `versionName\s+"[\d.]+"` matches from position `i` of `s`. */
  predicate NameAt(s: string, i: nat) {
    OccursAt(s, NameKey, i) &&
    var q := RunEnd(s, i + |NameKey|, IsSpace);
    i + |NameKey| < q && QuotedAt(s, q)
  }

  /** The span of the `versionName` match that starts at `i`; the value is the quoted text. */
  function NameSpanAt(line: string, i: nat): (m: Span)
    requires NameAt(line, i)
    ensures m.start == i && i + |NameKey| < m.valueStart - 1 < m.valueStart < m.valueEnd < m.end == m.valueEnd + 1 <= |line|
    ensures line[m.valueStart - 1] == '"' && line[m.valueEnd] == '"'
    ensures forall k :: m.valueStart <= k < m.valueEnd ==> IsVersionChar(line[k])
  {
    var q := RunEnd(line, i + |NameKey|, IsSpace);
    var e := RunEnd(line, q + 1, IsVersionChar);
    Span(i, q + 1, e, e + 1)
  }

  /** The leftmost match of `versionName\s+"([\d.]+)"`. */
  function FindName(line: string): (r: Option<Span>)
    ensures r.None? <==> Leftmost(line, NameAt, 0).None?
    ensures r.Some? ==> Leftmost(line, NameAt, 0) == Some(r.value.start)
    ensures r.Some? ==> NameAt(line, r.value.start) && r.value == NameSpanAt(line, r.value.start)
  {
    match Leftmost(line, NameAt, 0)
    case None => None
    case Some(i) => Some(NameSpanAt(line, i))
  }

  /**
   * `parse_version_name_line`: the version quoted after the leftmost
   * `versionName`; a quoted text that is not a three-part version gives
   * nothing (no later match is tried).
   */
  function ParseVersionNameLine(line: string): (r: Option<Version>)
    ensures r.Some? ==> FindName(line).Some?
  {
    match FindName(line)
    case None => None
    case Some(m) => Parse(line[m.valueStart..m.valueEnd])
  }

  /**
   * `replace_version_name`: when the leftmost match holds a valid version,
   * it becomes `versionName "X.Y.Z"`; otherwise the line is unchanged.
   */
  function ReplaceVersionName(line: string, name: Version): (r: string)
    ensures ParseVersionNameLine(line).None? ==> r == line
    ensures ParseVersionNameLine(line).Some? ==> var m := FindName(line).value;
      r == line[..m.start] + NameKey + " \"" + ToString(name) + "\"" + line[m.end..]
  {
    match FindName(line)
    case None => line
    case Some(m) =>
      if Parse(line[m.valueStart..m.valueEnd]).None? then line
      else line[..m.start] + NameKey + " \"" + ToString(name) + "\"" + line[m.end..]
  }

  /** Whether a quoted version starts at `q` is decided by the text before a `v` at `i`. */
  lemma QuotedAtStable(a: string, b: string, i: nat, q: nat)
    requires q <= i < |a| && i < |b| && a[i] == 'v' == b[i]
    requires forall k :: 0 <= k < i ==> a[k] == b[k]
    ensures QuotedAt(a, q) == QuotedAt(b, q)
  {
    if q < i && a[q] == '"' {
      RunEndAgree(a, b, q + 1, IsVersionChar, i);
    }
  }

  /** Only the text before a `versionName` keyword decides whether a match starts earlier. */
  lemma NameAtStable(a: string, b: string, i: nat, j: nat)
    requires OccursAt(a, NameKey, i) && OccursAt(b, NameKey, i)
    requires forall k :: 0 <= k < i ==> a[k] == b[k]
    requires j < i
    ensures NameAt(a, j) == NameAt(b, j)
  {
    assert a[i] == NameKey[0] == b[i];
    if i < j + |NameKey| {
      KeyStartsOnce();
      OccursBlocked(a, NameKey, j, i);
      OccursBlocked(b, NameKey, j, i);
    } else {
      assert OccursAt(a, NameKey, j) == OccursAt(b, NameKey, j);
      if OccursAt(a, NameKey, j) {
        RunEndAgree(a, b, j + |NameKey|, IsSpace, i);
        QuotedAtStable(a, b, i, RunEnd(a, j + |NameKey|, IsSpace));
      }
    }
  }

  /** A leftmost `versionName` match stays leftmost when only the text from it onwards changes. */
  lemma NameLeftmostKept(a: string, b: string, i: nat)
    requires Leftmost(a, NameAt, 0) == Some(i)
    requires NameAt(b, i)
    requires forall k :: 0 <= k < i ==> a[k] == b[k]
    ensures Leftmost(b, NameAt, 0) == Some(i)
  {
    forall j | 0 <= j <= i ensures NameAt(a, j) == NameAt(b, j) {
      if j < i {
        NameAtStable(a, b, i, j);
      }
    }
    LeftmostAgree(a, b, NameAt, i);
  }

  /** Where the parts of `versionName "S"` written after `pre` land, character by character. */
  lemma NameText(pre: string, s: string, rest: string)
    requires forall k :: 0 <= k < |s| ==> IsVersionChar(s[k])
    ensures var out := pre + NameKey + " \"" + s + "\"" + rest;
      var vs := |pre| + |NameKey| + 2;
      && OccursAt(out, NameKey, |pre|) && IsSpace(out[vs - 2]) && out[vs - 1] == '"'
      && (forall k :: 0 <= k < |pre| ==> out[k] == pre[k])
      && (forall k :: vs <= k < vs + |s| ==> IsVersionChar(out[k]))
      && vs + |s| < |out| && out[vs + |s|] == '"'
      && out[vs..vs + |s|] == s
  {
    NameTextKey(pre, s, rest);
    NameTextValue(pre, s, rest);
  }

  /** The key, the space and the opening quote of `versionName "S"` written after `pre`. */
  lemma NameTextKey(pre: string, s: string, rest: string)
    ensures var out := pre + NameKey + " \"" + s + "\"" + rest;
      var vs := |pre| + |NameKey| + 2;
      && OccursAt(out, NameKey, |pre|) && IsSpace(out[vs - 2]) && out[vs - 1] == '"'
      && (forall k :: 0 <= k < |pre| ==> out[k] == pre[k])
  {
    var out := pre + NameKey + " \"" + s + "\"" + rest;
    var i := |pre|;
    var key, tail := NameKey + " \"", "\"" + rest;
    assert out == pre + key + s + tail;
    Pieces(pre, key, s, tail);
    assert forall k :: 0 <= k < |NameKey| ==> out[i + k] == key[k] == NameKey[k];
    assert out[i + |NameKey|] == key[|NameKey|];
    assert out[i + |NameKey| + 1] == key[|NameKey| + 1];
  }

  /** The quoted text and the closing quote of `versionName "S"` written after `pre`. */
  lemma NameTextValue(pre: string, s: string, rest: string)
    requires forall k :: 0 <= k < |s| ==> IsVersionChar(s[k])
    ensures var out := pre + NameKey + " \"" + s + "\"" + rest;
      var vs := |pre| + |NameKey| + 2;
      && (forall k :: vs <= k < vs + |s| ==> IsVersionChar(out[k]))
      && vs + |s| < |out| && out[vs + |s|] == '"'
      && out[vs..vs + |s|] == s
  {
    var out := pre + NameKey + " \"" + s + "\"" + rest;
    var key, tail := NameKey + " \"", "\"" + rest;
    assert out == pre + key + s + tail;
    Pieces(pre, key, s, tail);
    assert out[|pre| + |key| + |s|] == tail[0];
  }

  /** The text `versionName "S"` written after `pre` is a match whose captured text is exactly `S`. */
  lemma NameLayout(pre: string, s: string, rest: string)
    requires 0 < |s| && forall k :: 0 <= k < |s| ==> IsVersionChar(s[k])
    ensures var out := pre + NameKey + " \"" + s + "\"" + rest;
      && NameAt(out, |pre|)
      && (forall k :: 0 <= k < |pre| ==> out[k] == pre[k])
      && var m := NameSpanAt(out, |pre|);
      && m.valueStart == |pre| + |NameKey| + 2 && m.valueEnd == m.valueStart + |s|
      && out[m.valueStart..m.valueEnd] == s
  {
    var out := pre + NameKey + " \"" + s + "\"" + rest;
    var vs := |pre| + |NameKey| + 2;
    NameText(pre, s, rest);
    RunEndUnique(out, vs - 2, IsSpace, vs - 1);
    RunEndUnique(out, vs, IsVersionChar, vs + |s|);
  }

  /** The leftmost match decides what `parse_version_name_line` reads. */
  lemma NameFound(line: string, i: nat)
    requires Leftmost(line, NameAt, 0) == Some(i)
    ensures var m := NameSpanAt(line, i);
      ParseVersionNameLine(line) == Parse(line[m.valueStart..m.valueEnd])
  {
    assert FindName(line) == Some(NameSpanAt(line, i));
  }

  /** Re-parsing a rewritten `versionName` line gives the new version. */
  lemma ReplaceNameRoundTrip(line: string, name: Version)
    requires ParseVersionNameLine(line).Some?
    ensures ParseVersionNameLine(ReplaceVersionName(line, name)) == Some(name)
  {
    var m := FindName(line).value;
    var s := ToString(name);
    var out := ReplaceVersionName(line, name);
    var pre := line[..m.start];
    assert out == pre + NameKey + " \"" + s + "\"" + line[m.end..];
    NameLayout(pre, s, line[m.end..]);
    NameLeftmostKept(line, out, m.start);
    NameFound(out, m.start);
    assert |pre| == m.start;
    ParseToString(name);
  }

  // ---------------------------------------------------------------------
  // Rendering

  /** One stored line as `lines()` and `write` emit it. */
  function RenderLine(line: string, code: U32, name: Version): string
    requires CodeFits(line)
  {
    ReplaceVersionName(ReplaceVersionCode(line, code), name)
  }

  predicate AllCodesFit(lines: seq<string>) {
    forall i :: 0 <= i < |lines| ==> CodeFits(lines[i])
  }

  function Render(lines: seq<string>, code: U32, name: Version): seq<string>
    requires AllCodesFit(lines)
  {
    seq(|lines|, i requires 0 <= i < |lines| => RenderLine(lines[i], code, name))
  }

  /**
   * A line that has no `versionCode` match and no readable `versionName`
   * match is emitted character for character.
   */
  lemma RenderUntouched(line: string, code: U32, name: Version)
    requires FindCode(line).None? && ParseVersionNameLine(line).None?
    ensures CodeFits(line) && RenderLine(line, code, name) == line
  {
  }

  // ---------------------------------------------------------------------
  // Reading

  /** `parse::<u32>().unwrap()` does not panic on any line the reading loop parses. */
  ghost predicate CodesParse(lines: seq<string>) {
    Parsable(lines, ParseVersionCodeLine)
  }

  /** Every line can be searched for a version. */
  lemma NamesParse(lines: seq<string>)
    ensures Parsable(lines, ParseVersionNameLine)
  {
    TotalParsable(lines, ParseVersionNameLine);
  }

  /** The build number of the first line that has a `versionCode` match. */
  ghost function FirstCode(lines: seq<string>): Option<U32>
    requires CodesParse(lines)
  {
    First(lines, ParseVersionCodeLine)
  }

  /** The version of the first line whose quoted version parses. */
  ghost function FirstName(lines: seq<string>): Option<Version>
  {
    NamesParse(lines);
    First(lines, ParseVersionNameLine)
  }

  /** The two `VersionNotFound` reasons, in the order `from` checks them. */
  function Discover(code: Option<U32>, name: Option<Version>): (r: Result<(U32, Version)>)
    ensures code.None? ==> r == Err(VersionNotFound("failed to find versionCode"))
    ensures code.Some? && name.None? ==> r == Err(VersionNotFound("failed to find versionName"))
    ensures code.Some? && name.Some? ==> r == Ok((code.value, name.value))
  {
    if code.None? then Err(VersionNotFound("failed to find versionCode"))
    else if name.None? then Err(VersionNotFound("failed to find versionName"))
    else Ok((code.value, name.value))
  }

  // ---------------------------------------------------------------------
  // The document

  /** `BuildGradleContent`: the stored lines, the discovered version and the dirty flag. */
  class BuildGradleContent {
    var lines: seq<string>
    const version: GradleVersion
    var modified: bool

    constructor (lines: seq<string>, code: U32, name: Version)
      ensures this.lines == lines && fresh(version)
      ensures version.code == code && version.name == name && !modified
    {
      this.lines := lines;
      this.version := new GradleVersion(code, name);
      this.modified := false;
    }

    /**
     * `from`: scan the lines once; fail when no line yields a build number
     * (checked first) or none yields a version.
     */
    static method From(input: seq<string>) returns (r: Result<BuildGradleContent>)
      requires CodesParse(input)
      ensures FirstCode(input).None? ==> r == Err(VersionNotFound("failed to find versionCode"))
      ensures FirstCode(input).Some? && FirstName(input).None? ==> r == Err(VersionNotFound("failed to find versionName"))
      ensures FirstCode(input).Some? && FirstName(input).Some? ==>
        && r.Ok? && fresh(r.value) && fresh(r.value.version)
        && r.value.lines == input && !r.value.modified
        && r.value.version.code == FirstCode(input).value
        && r.value.version.name == FirstName(input).value
    {
      NamesParse(input);
      var lines, code, name := ScanTwo(input, ParseVersionCodeLine, ParseVersionNameLine);
      match Discover(code, name)
      case Err(e) =>
        r := Err(e);
      case Ok((c, n)) =>
        var content := new BuildGradleContent(lines, c, n);
        r := Ok(content);
    }

    /** `sync_version`: delegate to the version; mark the document dirty only when it changed. */
    method SyncVersion(target: Version) returns (r: Result<()>)
      requires Less(version.name, target) ==> version.code < U32_MAX
      modifies this`modified, version
      ensures match SyncStep(old(version.code), old(version.name), target)
        case Err(e) =>
          && r == Err(e) && modified == old(modified)
          && version.code == old(version.code) && version.name == old(version.name)
        case Ok(o) =>
          && r == Ok(()) && modified == (old(modified) || o.changed)
          && version.code == o.code && version.name == o.name
    {
      var changed := version.Synchronize(target);
      match changed
      case Err(e) =>
        r := Err(e);
      case Ok(c) =>
        if c {
          modified := true;
        }
        r := Ok(());
    }

    /** `lines()`: every stored line rewritten with the current build number and version. */
    function Lines(): (r: seq<string>)
      reads this, version
      requires AllCodesFit(lines)
      ensures |r| == |lines|
      ensures forall i :: 0 <= i < |lines| ==> r[i] == RenderLine(lines[i], version.code, version.name)
    {
      Render(lines, version.code, version.name)
    }
  }
}

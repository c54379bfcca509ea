/**
 * The properties dialect (`gradle.properties`): the line functions that
 * find `projectVersion = X.Y.Z` and swap the version text, and the
 * `PropertiesContent` document, whose build number is always 1.
 */
module Properties {
  import opened Text
  import opened Semver
  import opened Errors
  import opened VersionState
  import opened Scanning

  const ProjectKey: string := "projectVersion"

  // ---------------------------------------------------------------------
  // projectVersion\s*=\s*(?P<version>[\d.]+)

  /** The pattern `=\s*[\d.]` matches from position `eq` of `s`. */
  predicate AssignedAt(s: string, eq: nat) {
    eq < |s| && s[eq] == '=' &&
    var vs := RunEnd(s, eq + 1, IsSpace);
    vs < |s| && IsVersionChar(s[vs])
  }

  /** The pattern `projectVersion\s*=\s*[\d.]+` matches from position `i` of `s`. */
  predicate ProjectAt(s: string, i: nat) {
    OccursAt(s, ProjectKey, i) && AssignedAt(s, RunEnd(s, i + |ProjectKey|, IsSpace))
  }

  /** The span of the match that starts at `i`; the value is the whole `[\d.]` run after `=`. */
  function ProjectSpanAt(line: string, i: nat): (m: Span)
    requires ProjectAt(line, i)
    ensures m.start == i && i + |ProjectKey| < m.valueStart < m.valueEnd == m.end <= |line|
    ensures forall k :: m.valueStart <= k < m.valueEnd ==> IsVersionChar(line[k])
    ensures m.end < |line| ==> !IsVersionChar(line[m.end])
  {
    var eq := RunEnd(line, i + |ProjectKey|, IsSpace);
    var vs := RunEnd(line, eq + 1, IsSpace);
    var ve := RunEnd(line, vs, IsVersionChar);
    Span(i, vs, ve, ve)
  }

  /** The leftmost match of `projectVersion\s*=\s*([\d.]+)`. */
  function FindProject(line: string): (r: Option<Span>)
    ensures r.None? <==> Leftmost(line, ProjectAt, 0).None?
    ensures r.Some? ==> Leftmost(line, ProjectAt, 0) == Some(r.value.start)
    ensures r.Some? ==> ProjectAt(line, r.value.start) && r.value == ProjectSpanAt(line, r.value.start)
  {
    match Leftmost(line, ProjectAt, 0)
    case None => None
    case Some(i) => Some(ProjectSpanAt(line, i))
  }

  /**
   * `parse_project_version_from_line`: the version after the leftmost
   * `projectVersion =`; a value that is not a three-part version gives
   * nothing (no later match is tried).
   */
  function ParseProjectVersionFromLine(line: string): (r: Option<Version>)
    ensures r.Some? ==> FindProject(line).Some?
  {
    match FindProject(line)
    case None => None
    case Some(m) => Parse(line[m.valueStart..m.valueEnd])
  }

  /**
   * `replace_project_version_from_line`: when the line holds a valid
   * version, every occurrence of its text in the line is swapped for the
   * new version's text; otherwise the line is unchanged.
   */
  function ReplaceProjectVersionFromLine(line: string, name: Version): (r: string)
    ensures ParseProjectVersionFromLine(line).None? ==> r == line
    ensures ParseProjectVersionFromLine(line).Some? ==>
      r == ReplaceAll(line, ToString(ParseProjectVersionFromLine(line).value), ToString(name))
  {
    match ParseProjectVersionFromLine(line)
    case None => line
    case Some(current) => ReplaceAll(line, ToString(current), ToString(name))
  }

  /** The value of the leftmost match is the text of the version read from it. */
  lemma ProjectFound(line: string)
    requires ParseProjectVersionFromLine(line).Some?
    ensures var m := FindProject(line).value;
      ToString(ParseProjectVersionFromLine(line).value) == line[m.valueStart..m.valueEnd]
  {
  }

  /** Synchronising a line to the version it already holds leaves it as it is. */
  lemma ReplaceProjectSame(line: string, name: Version)
    requires ParseProjectVersionFromLine(line) == Some(name)
    ensures ReplaceProjectVersionFromLine(line, name) == line
  {
    ReplaceAllSelf(line, ToString(name));
  }

  /** The keyword holds no digit. */
  lemma ProjectKeyLetters()
    ensures forall m :: 0 <= m < |ProjectKey| ==> !IsDigit(ProjectKey[m])
  {
  }

  /** Whether `=` and a value start at `eq` is decided by the text before a digit at `v`. */
  lemma AssignedAtStable(a: string, b: string, v: nat, eq: nat)
    requires eq <= v < |a| && v < |b| && IsDigit(a[v]) && IsDigit(b[v])
    requires forall k :: 0 <= k < v ==> a[k] == b[k]
    ensures AssignedAt(a, eq) == AssignedAt(b, eq)
  {
    if eq < v && a[eq] == '=' {
      RunEndAgree(a, b, eq + 1, IsSpace, v);
    }
  }

  /**
   * Whether a match starts at `j` is decided by the text before the value
   * at `v`: both strings hold a digit there and agree before it.
   */
  lemma ProjectAtStable(a: string, b: string, v: nat, j: nat)
    requires v < |a| && v < |b| && IsDigit(a[v]) && IsDigit(b[v])
    requires forall k :: 0 <= k < v ==> a[k] == b[k]
    requires j <= v
    ensures ProjectAt(a, j) == ProjectAt(b, j)
  {
    if v < j + |ProjectKey| {
      ProjectKeyLetters();
      OccursBlocked(a, ProjectKey, j, v);
      OccursBlocked(b, ProjectKey, j, v);
    } else if OccursAt(a, ProjectKey, j) {
      assert OccursAt(b, ProjectKey, j);
      RunEndAgree(a, b, j + |ProjectKey|, IsSpace, v);
      AssignedAtStable(a, b, v, RunEnd(a, j + |ProjectKey|, IsSpace));
    } else {
      assert !OccursAt(b, ProjectKey, j);
    }
  }

  /** Under the same conditions, a match at `j` captures its value from the same position in both. */
  lemma ProjectStartStable(a: string, b: string, v: nat, j: nat)
    requires v < |a| && v < |b| && IsDigit(a[v]) && IsDigit(b[v])
    requires forall k :: 0 <= k < v ==> a[k] == b[k]
    requires j <= v && ProjectAt(a, j) && ProjectAt(b, j)
    ensures ProjectSpanAt(a, j).valueStart == ProjectSpanAt(b, j).valueStart
  {
    ProjectKeyLetters();
    if v < j + |ProjectKey| {
      OccursBlocked(a, ProjectKey, j, v);
    }
    RunEndAgree(a, b, j + |ProjectKey|, IsSpace, v);
    var eq := RunEnd(a, j + |ProjectKey|, IsSpace);
    RunEndAgree(a, b, eq + 1, IsSpace, v);
  }

  /** Swapping the value at `v..e` of the leftmost match for `s` keeps that match the leftmost one. */
  lemma ProjectSwapLeftmost(line: string, i: nat, s: string)
    requires Leftmost(line, ProjectAt, 0) == Some(i)
    requires 0 < |s| && IsDigit(s[0])
    requires IsDigit(line[ProjectSpanAt(line, i).valueStart])
    ensures var m := ProjectSpanAt(line, i);
      Leftmost(line[..m.valueStart] + s + line[m.valueEnd..], ProjectAt, 0) == Some(i)
  {
    var m := ProjectSpanAt(line, i);
    var v := m.valueStart;
    var out := line[..v] + s + line[m.valueEnd..];
    Splice(line, v, m.valueEnd, s);
    forall j | 0 <= j <= i ensures ProjectAt(line, j) == ProjectAt(out, j) {
      ProjectAtStable(line, out, v, j);
    }
    LeftmostAgree(line, out, ProjectAt, i);
  }

  /** After the swap, the match at `i` captures exactly `s`, from where the old value started. */
  lemma ProjectSwapSpan(line: string, i: nat, s: string)
    requires Leftmost(line, ProjectAt, 0) == Some(i)
    requires 0 < |s| && IsDigit(s[0]) && forall k :: 0 <= k < |s| ==> IsVersionChar(s[k])
    requires IsDigit(line[ProjectSpanAt(line, i).valueStart])
    requires var m := ProjectSpanAt(line, i); ProjectAt(line[..m.valueStart] + s + line[m.valueEnd..], i)
    ensures var m := ProjectSpanAt(line, i);
      var out := line[..m.valueStart] + s + line[m.valueEnd..];
      var m' := ProjectSpanAt(out, i);
      && m'.valueStart == m.valueStart && m'.valueEnd == m.valueStart + |s|
      && out[m'.valueStart..m'.valueEnd] == s
  {
    var m := ProjectSpanAt(line, i);
    var v, e := m.valueStart, m.valueEnd;
    var out := line[..v] + s + line[e..];
    Splice(line, v, e, s);
    ProjectStartStable(line, out, v, i);
    SpliceRun(line, v, e, s, IsVersionChar);
  }

  /** Whatever match is the leftmost one, the line's version is read from its value. */
  lemma ProjectFoundAt(line: string, i: nat)
    requires Leftmost(line, ProjectAt, 0) == Some(i)
    ensures var m := ProjectSpanAt(line, i);
      ParseProjectVersionFromLine(line) == Parse(line[m.valueStart..m.valueEnd])
  {
    assert FindProject(line) == Some(ProjectSpanAt(line, i));
  }

  /**
   * When the old version's text occurs in the line only as the matched
   * value, the rewritten line holds the new version there and nothing else
   * changes.
   */
  lemma ReplaceProjectOnce(line: string, name: Version)
    requires ParseProjectVersionFromLine(line).Some?
    requires forall j :: 0 <= j <= |line| && OccursAt(line, ToString(ParseProjectVersionFromLine(line).value), j) ==>
      j == FindProject(line).value.valueStart
    ensures var m := FindProject(line).value;
      ReplaceProjectVersionFromLine(line, name) == line[..m.valueStart] + ToString(name) + line[m.valueEnd..]
  {
    var m := FindProject(line).value;
    var os, ns := ToString(ParseProjectVersionFromLine(line).value), ToString(name);
    ProjectFound(line);
    ReplaceAllSlice(line, os, ns, m.valueStart, m.valueEnd);
    assert ReplaceProjectVersionFromLine(line, name) == ReplaceAll(line, os, ns);
  }

  /**
   * When the old version's text occurs twice, as the matched value and once
   * more after it (a trailing comment, say), both occurrences are swapped.
   */
  lemma ReplaceProjectTwice(line: string, name: Version, b: nat)
    requires ParseProjectVersionFromLine(line).Some?
    requires var os := ToString(ParseProjectVersionFromLine(line).value);
      && FindProject(line).value.valueEnd <= b && OccursAt(line, os, b)
      && forall j :: 0 <= j <= |line| && OccursAt(line, os, j) ==> j == FindProject(line).value.valueStart || j == b
    ensures var m := FindProject(line).value;
      var os, ns := ToString(ParseProjectVersionFromLine(line).value), ToString(name);
      ReplaceProjectVersionFromLine(line, name)
        == line[..m.valueStart] + ns + line[m.valueEnd..b] + ns + line[b + |os|..]
  {
    var m := FindProject(line).value;
    var os, ns := ToString(ParseProjectVersionFromLine(line).value), ToString(name);
    ProjectFound(line);
    ReplaceAllTwiceSlice(line, os, ns, m.valueStart, m.valueEnd, b);
    assert ReplaceProjectVersionFromLine(line, name) == ReplaceAll(line, os, ns);
  }

  /** Under the same condition, re-parsing the rewritten line gives the new version. */
  lemma ReplaceProjectRoundTrip(line: string, name: Version)
    requires ParseProjectVersionFromLine(line).Some?
    requires forall j :: 0 <= j <= |line| && OccursAt(line, ToString(ParseProjectVersionFromLine(line).value), j) ==>
      j == FindProject(line).value.valueStart
    ensures ParseProjectVersionFromLine(ReplaceProjectVersionFromLine(line, name)) == Some(name)
  {
    var m := FindProject(line).value;
    var ns := ToString(name);
    ReplaceProjectOnce(line, name);
    ProjectFound(line);
    assert line[m.valueStart] == ToString(ParseProjectVersionFromLine(line).value)[0];
    var out := line[..m.valueStart] + ns + line[m.valueEnd..];
    ProjectSwapLeftmost(line, m.start, ns);
    ProjectSwapSpan(line, m.start, ns);
    ProjectFoundAt(out, m.start);
    ParseToString(name);
  }

  // ---------------------------------------------------------------------
  // The document

  /** Every stored line as `lines()` emits it for the version `name`. */
  function Render(lines: seq<string>, name: Version): seq<string> {
    seq(|lines|, i requires 0 <= i < |lines| => ReplaceProjectVersionFromLine(lines[i], name))
  }

  /** Every line can be searched for a version. */
  lemma ProjectsParse(lines: seq<string>)
    ensures Parsable(lines, ParseProjectVersionFromLine)
  {
    TotalParsable(lines, ParseProjectVersionFromLine);
  }

  /** The version of the first line that holds a valid one. */
  ghost function FirstProject(lines: seq<string>): Option<Version>
  {
    ProjectsParse(lines);
    First(lines, ParseProjectVersionFromLine)
  }

  /** `PropertiesContent`: the stored lines, the version (build number 1) and the dirty flag. */
  class PropertiesContent {
    var lines: seq<string>
    const version: GradleVersion
    var modified: bool

    constructor (lines: seq<string>, name: Version)
      ensures this.lines == lines && fresh(version)
      ensures version.code == 1 && version.name == name && !modified
    {
      this.lines := lines;
      this.version := new GradleVersion(1, name);
      this.modified := false;
    }

    /** `from`: scan the lines once; fail when no line holds a valid `projectVersion`. */
    static method From(input: seq<string>) returns (r: Result<PropertiesContent>)
      ensures FirstProject(input).None? ==> r == Err(VersionNotFound("failed to find projectVersion"))
      ensures FirstProject(input).Some? ==>
        && r.Ok? && fresh(r.value) && fresh(r.value.version)
        && r.value.lines == input && !r.value.modified
        && r.value.version.code == 1
        && r.value.version.name == FirstProject(input).value
    {
      ProjectsParse(input);
      var lines, found := ScanOne(input, ParseProjectVersionFromLine);
      match found
      case None =>
        r := Err(VersionNotFound("failed to find projectVersion"));
      case Some(v) =>
        var content := new PropertiesContent(lines, v);
        r := Ok(content);
    }

    /** `sync_version`: delegate to the version; mark the document dirty only when it changed. */
    method SyncVersion(target: Version) returns (r: Result<()>)
      requires Less(version.name, target) ==> version.code < U32_MAX
      modifies this`modified, version
      ensures match SyncStep(old(version.code), old(version.name), target)
        case Err(e) =>
          && r == Err(e) && modified == old(modified)
          && version.code == old(version.code) && version.name == old(version.name)
        case Ok(o) =>
          && r == Ok(()) && modified == (old(modified) || o.changed)
          && version.code == o.code && version.name == o.name
    {
      var changed := version.Synchronize(target);
      match changed
      case Err(e) =>
        r := Err(e);
      case Ok(c) =>
        if c {
          modified := true;
        }
        r := Ok(());
    }

    /** `lines()`: every stored line with its version text swapped for the current version. */
    function Lines(): (r: seq<string>)
      reads this, version
      ensures |r| == |lines|
      ensures forall i :: 0 <= i < |lines| ==> r[i] == ReplaceProjectVersionFromLine(lines[i], version.name)
    {
      Render(lines, version.name)
    }
  }
}

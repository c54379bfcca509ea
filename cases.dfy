/**
 * The line functions on the concrete lines of the repository's unit tests.
 */
module Cases {
  import opened Text
  import opened Semver
  import opened BuildGradle
  import opened Properties
  import opened Errors
  import opened VersionState
  import opened Scanning
  import opened Buffer

  /** A line without a `v` or a `p` holds no keyword and so no match. */
  lemma NoKeyword(line: string)
    requires 'v' !in line && 'p' !in line
    ensures CodeFits(line) && ParseVersionCodeLine(line).None?
    ensures ParseVersionNameLine(line).None?
    ensures ParseProjectVersionFromLine(line).None?
  {
    forall j | 0 <= j <= |line|
      ensures !CodeAt(line, j) && !NameAt(line, j) && !ProjectAt(line, j)
    {
      if j < |line| {
        OccursBlocked(line, CodeKey, j, j);
        OccursBlocked(line, NameKey, j, j);
        OccursBlocked(line, ProjectKey, j, j);
      }
    }
  }

  /** "hello world" yields neither a build number, nor a version, nor a project version. */
  lemma HelloWorld()
    ensures CodeFits("hello world") && ParseVersionCodeLine("hello world").None?
    ensures ParseVersionNameLine("hello world").None?
    ensures ParseProjectVersionFromLine("hello world").None?
  {
    NoKeyword("hello world");
  }

  /** A two-part version is refused. */
  lemma TwoParts()
    ensures Parse("1.0") == None && Parse("1.2") == None
  {
    assert IndexOf("1.0", '.') == Some(1);
    assert IndexOf("0", '.') == None;
    assert IndexOf("1.2", '.') == Some(1);
    assert IndexOf("2", '.') == None;
  }

  /** "versionCode abc": the keyword is there but no digit follows it. */
  lemma CodeWithoutDigits()
    ensures CodeFits("versionCode abc") && ParseVersionCodeLine("versionCode abc").None?
  {
    var s := "versionCode abc";
    assert RunEnd(s, 11, IsSpace) == 12 by {
      RunEndUnique(s, 11, IsSpace, 12);
    }
    forall j | 0 <= j <= |s| ensures !CodeAt(s, j) {
      if 0 < j < |s| {
        OccursBlocked(s, CodeKey, j, j);
      }
    }
  }

  /** `versionName "1.0"`: the quoted text is found but is not a three-part version. */
  lemma NameTwoParts()
    ensures ParseVersionNameLine("versionName \"1.0\"") == None
  {
    var s := "versionName \"1.0\"";
    RunEndUnique(s, 11, IsSpace, 12);
    RunEndUnique(s, 13, IsVersionChar, 16);
    assert QuotedAt(s, 12);
    LeftmostFirst(s, NameAt, 0);
    assert s[13..16] == "1.0";
    TwoParts();
  }

  /** A build-number line holds no version. */
  lemma CodeLineHasNoName()
    ensures ParseVersionNameLine("versionCode 2") == None
  {
    var s := "versionCode 2";
    forall j | 0 <= j <= |s| ensures !NameAt(s, j) {
      if j == 0 {
        OccursBlocked(s, NameKey, 0, 7);
      } else if j < |s| {
        OccursBlocked(s, NameKey, j, j);
      }
    }
  }

  /** "project=1.2.3.4" lacks the `projectVersion` keyword. */
  lemma ProjectWithoutKey()
    ensures ParseProjectVersionFromLine("project=1.2.3.4") == None
  {
    var s := "project=1.2.3.4";
    forall j | 0 <= j <= |s| ensures !ProjectAt(s, j) {
      if j == 0 {
        OccursBlocked(s, ProjectKey, 0, 7);
      } else if j < |s| {
        OccursBlocked(s, ProjectKey, j, j);
      }
    }
  }

  /** "projectVersion=1.2": the value is found but has only two parts. */
  lemma ProjectTwoParts()
    ensures ParseProjectVersionFromLine("projectVersion=1.2") == None
  {
    var s := "projectVersion=1.2";
    RunEndUnique(s, 14, IsSpace, 14);
    RunEndUnique(s, 15, IsSpace, 15);
    RunEndUnique(s, 15, IsVersionChar, 18);
    assert AssignedAt(s, 14);
    LeftmostFirst(s, ProjectAt, 0);
    assert s[15..18] == "1.2";
    TwoParts();
  }

  // ---------------------------------------------------------------------
  // Indented lines of the shapes the tests use

  /** Indentation: spaces only. */
  predicate Indent(pre: string) {
    forall k :: 0 <= k < |pre| ==> pre[k] == ' '
  }

  /** An indented `versionCode N` line matches right after its indentation, and only there. */
  lemma CodeLineFound(pre: string, d: string)
    requires Indent(pre) && 0 < |d| && AllDigits(d)
    ensures var line := pre + CodeKey + " " + d;
      FindCode(line) == Some(Span(|pre|, |pre| + |CodeKey| + 1, |line|, |line|))
      && line[|pre| + |CodeKey| + 1..|line|] == d
  {
    var line := pre + CodeKey + " " + d;
    CodeLayout(pre, d, "");
    assert line == pre + CodeKey + " " + d + "";
    forall j | 0 <= j < |pre| ensures !CodeAt(line, j) {
      OccursBlocked(line, CodeKey, j, j);
    }
    LeftmostFirst(line, CodeAt, |pre|);
  }

  /** Such a line reads as the value of its digits, and is rewritten with the new digits only. */
  lemma CodeLine(pre: string, d: string, code: U32)
    requires Indent(pre) && 0 < |d| && AllDigits(d) && DecimalValue(d) <= U32_MAX
    ensures var line := pre + CodeKey + " " + d;
      && CodeFits(line)
      && ParseVersionCodeLine(line) == Some(DecimalValue(d))
      && ReplaceVersionCode(line, code) == pre + CodeKey + " " + DecimalString(code)
  {
    var line := pre + CodeKey + " " + d;
    CodeLineFound(pre, d);
    assert line[..|pre|] == pre;
    assert line[|line|..] == [];
  }

  /** An indented `versionCode N` line holds no `versionName` match. */
  lemma CodeLineNoName(pre: string, d: string)
    requires Indent(pre) && AllDigits(d)
    ensures FindName(pre + CodeKey + " " + d).None?
  {
    var line := pre + CodeKey + " " + d;
    var key := CodeKey + " ";
    assert line == pre + key + d + "";
    Pieces(pre, key, d, "");
    forall j | 0 <= j <= |line| ensures !NameAt(line, j) {
      if j == |pre| {
        OccursBlocked(line, NameKey, j, j + 7);
      } else if j < |line| {
        OccursBlocked(line, NameKey, j, j);
      }
    }
  }

  /** No `versionName` match starts inside the indentation. */
  lemma IndentNoName(line: string, n: nat)
    requires n <= |line| && forall k :: 0 <= k < n ==> line[k] == ' '
    ensures forall j :: 0 <= j < n ==> !NameAt(line, j)
  {
    forall j | 0 <= j < n ensures !NameAt(line, j) {
      OccursBlocked(line, NameKey, j, j);
    }
  }

  /** An indented `versionName "S"` line matches right after its indentation, and only there. */
  lemma NameLineSpan(pre: string, v: string)
    requires Indent(pre) && 0 < |v| && forall k :: 0 <= k < |v| ==> IsVersionChar(v[k])
    ensures var line := pre + NameKey + " \"" + v + "\"";
      && FindName(line) == Some(Span(|pre|, |pre| + |NameKey| + 2, |pre| + |NameKey| + 2 + |v|, |line|))
      && line[|pre| + |NameKey| + 2..|pre| + |NameKey| + 2 + |v|] == v
  {
    var line := pre + NameKey + " \"" + v + "\"";
    NameLayout(pre, v, "");
    assert line == pre + NameKey + " \"" + v + "\"" + "";
    IndentNoName(line, |pre|);
    LeftmostFirst(line, NameAt, |pre|);
    var m := NameSpanAt(line, |pre|);
    assert FindName(line) == Some(m);
    assert m.start == |pre|;
    assert m.valueStart == |pre| + |NameKey| + 2;
    assert m.valueEnd == |pre| + |NameKey| + 2 + |v|;
    assert m.end == |line|;
    assert m == Span(|pre|, |pre| + |NameKey| + 2, |pre| + |NameKey| + 2 + |v|, |line|);
  }

  /** Such a line reads as the version its quoted text spells. */
  lemma NameLineFound(pre: string, v: string)
    requires Indent(pre) && 0 < |v| && forall k :: 0 <= k < |v| ==> IsVersionChar(v[k])
    ensures ParseVersionNameLine(pre + NameKey + " \"" + v + "\"") == Parse(v)
  {
    NameLineSpan(pre, v);
  }

  /** The match on such a line spans the line from the end of its indentation. */
  lemma NameLineEnds(pre: string, v: string)
    requires Indent(pre) && 0 < |v| && forall k :: 0 <= k < |v| ==> IsVersionChar(v[k])
    ensures var line := pre + NameKey + " \"" + v + "\"";
      FindName(line).Some? && FindName(line).value.start == |pre| && FindName(line).value.end == |line|
  {
    NameLineSpan(pre, v);
  }

  /** A line built from a prefix and four parts starts with that prefix. */
  lemma PrefixKept(pre: string, a: string, b: string, c: string, d: string)
    ensures (pre + a + b + c + d)[..|pre|] == pre
  {
  }

  /** Replacing everything after a line's prefix by four parts gives the prefix and those parts. */
  lemma Rewrap(line: string, pre: string, a: string, b: string, c: string, d: string, s: nat, e: nat)
    requires s == |pre| <= |line| && e == |line| && line[..|pre|] == pre
    ensures line[..s] + a + b + c + d + line[e..] == pre + a + b + c + d
  {
    assert line[e..] == [];
  }

  /** Such a line holding a valid version is rewritten with the new version only. */
  lemma NameLine(pre: string, v: string, name: Version)
    requires Indent(pre) && 0 < |v| && forall k :: 0 <= k < |v| ==> IsVersionChar(v[k])
    requires Parse(v).Some?
    ensures var line := pre + NameKey + " \"" + v + "\"";
      ReplaceVersionName(line, name) == pre + NameKey + " \"" + ToString(name) + "\""
  {
    var line := pre + NameKey + " \"" + v + "\"";
    NameLineEnds(pre, v);
    NameLineFound(pre, v);
    var m := FindName(line).value;
    PrefixKept(pre, NameKey, " \"", v, "\"");
    Rewrap(line, pre, NameKey, " \"", ToString(name), "\"", m.start, m.end);
  }

  /** An indented `versionName "S"` line holds no `versionCode` match. */
  lemma NameLineNoCode(pre: string, v: string)
    requires Indent(pre) && forall k :: 0 <= k < |v| ==> IsVersionChar(v[k])
    ensures var line := pre + NameKey + " \"" + v + "\"";
      FindCode(line).None? && CodeFits(line)
  {
    var line := pre + NameKey + " \"" + v + "\"";
    var key, tail := NameKey + " \"", "\"";
    assert line == pre + key + v + tail;
    Pieces(pre, key, v, tail);
    forall j | 0 <= j <= |line| ensures !CodeAt(line, j) {
      if j == |pre| {
        OccursBlocked(line, CodeKey, j, j + 7);
      } else if j < |line| {
        OccursBlocked(line, CodeKey, j, j);
      }
    }
  }

  /** The text before the value of an indented `projectVersion = X.Y.Z` line, with any spacing around `=`. */
  function ProjectHead(pre: string, sp1: string, sp2: string): string {
    pre + ProjectKey + sp1 + "=" + sp2
  }

  /** Where the parts of that text land; none of its characters is a digit. */
  lemma ProjectHeadText(pre: string, sp1: string, sp2: string)
    requires Indent(pre) && Indent(sp1) && Indent(sp2)
    ensures var head := ProjectHead(pre, sp1, sp2);
      var eq := |pre| + |ProjectKey| + |sp1|;
      && |head| == eq + 1 + |sp2|
      && (forall k :: 0 <= k < |pre| ==> head[k] == ' ')
      && OccursAt(head, ProjectKey, |pre|)
      && (forall k :: |pre| + |ProjectKey| <= k < eq ==> head[k] == ' ')
      && head[eq] == '='
      && (forall k :: eq < k < |head| ==> head[k] == ' ')
      && (forall k :: 0 <= k < |head| ==> !IsVersionChar(head[k]))
  {
    var head := ProjectHead(pre, sp1, sp2);
    var key := ProjectKey + sp1;
    var tail := "=" + sp2;
    assert head == pre + key + tail + "";
    Pieces(pre, key, tail, "");
    assert forall k :: 0 <= k < |ProjectKey| ==> head[|pre| + k] == key[k] == ProjectKey[k];
  }

  /** The part after `head` is what was appended. */
  lemma Tail(head: string, v: string)
    ensures (head + v)[|head|..|head + v|] == v
  {
  }

  /** An indented `projectVersion` line matches right after its indentation; its value is the text after `=`. */
  lemma ProjectLineSpan(pre: string, sp1: string, sp2: string, v: string)
    requires Indent(pre) && Indent(sp1) && Indent(sp2)
    requires 0 < |v| && IsDigit(v[0]) && forall k :: 0 <= k < |v| ==> IsVersionChar(v[k])
    ensures var head := ProjectHead(pre, sp1, sp2);
      var line := head + v;
      && FindProject(line) == Some(Span(|pre|, |head|, |line|, |line|))
      && line[|head|..|line|] == v
  {
    var head := ProjectHead(pre, sp1, sp2);
    var line := head + v;
    ProjectLineAt(pre, sp1, sp2, v);
    forall j | 0 <= j < |pre| ensures !ProjectAt(line, j) {
      OccursBlocked(line, ProjectKey, j, j);
    }
    LeftmostFirst(line, ProjectAt, |pre|);
    Tail(head, v);
  }

  /** The match right after the indentation, and its span. */
  lemma ProjectLineAt(pre: string, sp1: string, sp2: string, v: string)
    requires Indent(pre) && Indent(sp1) && Indent(sp2)
    requires 0 < |v| && IsDigit(v[0]) && forall k :: 0 <= k < |v| ==> IsVersionChar(v[k])
    ensures var head := ProjectHead(pre, sp1, sp2);
      var line := head + v;
      && (forall k :: 0 <= k < |pre| ==> line[k] == ' ')
      && ProjectAt(line, |pre|)
      && ProjectSpanAt(line, |pre|) == Span(|pre|, |head|, |line|, |line|)
  {
    var head := ProjectHead(pre, sp1, sp2);
    var line := head + v;
    var eq := |pre| + |ProjectKey| + |sp1|;
    ProjectLineText(pre, sp1, sp2, v);
    RunEndUnique(line, |pre| + |ProjectKey|, IsSpace, eq);
    RunEndUnique(line, eq + 1, IsSpace, |head|);
    RunEndUnique(line, |head|, IsVersionChar, |line|);
    assert AssignedAt(line, eq);
  }

  /** Where the parts of an indented `projectVersion` line land. */
  lemma ProjectLineText(pre: string, sp1: string, sp2: string, v: string)
    requires Indent(pre) && Indent(sp1) && Indent(sp2)
    requires 0 < |v| && IsDigit(v[0]) && forall k :: 0 <= k < |v| ==> IsVersionChar(v[k])
    ensures var head := ProjectHead(pre, sp1, sp2);
      var line := head + v;
      var eq := |pre| + |ProjectKey| + |sp1|;
      && |head| == eq + 1 + |sp2| && |line| == |head| + |v|
      && (forall k :: 0 <= k < |pre| ==> line[k] == ' ')
      && OccursAt(line, ProjectKey, |pre|)
      && (forall k :: |pre| + |ProjectKey| <= k < eq ==> IsSpace(line[k]))
      && line[eq] == '=' && !IsSpace(line[eq])
      && (forall k :: eq < k < |head| ==> IsSpace(line[k]))
      && (forall k :: |head| <= k < |line| ==> IsVersionChar(line[k]))
      && !IsSpace(line[|head|])
  {
    var head := ProjectHead(pre, sp1, sp2);
    var line := head + v;
    ProjectHeadText(pre, sp1, sp2);
    assert forall k :: 0 <= k < |head| ==> line[k] == head[k];
    assert forall k :: |head| <= k < |line| ==> line[k] == v[k - |head|];
  }

  /** Such a line reads as the version its value spells. */
  lemma ProjectLineFound(pre: string, sp1: string, sp2: string, v: string)
    requires Indent(pre) && Indent(sp1) && Indent(sp2)
    requires 0 < |v| && IsDigit(v[0]) && forall k :: 0 <= k < |v| ==> IsVersionChar(v[k])
    ensures ParseProjectVersionFromLine(ProjectHead(pre, sp1, sp2) + v) == Parse(v)
  {
    ProjectLineSpan(pre, sp1, sp2, v);
  }

  /** Such a line holding a valid version is rewritten with the new version only, spacing kept. */
  lemma ProjectLine(pre: string, sp1: string, sp2: string, v: string, name: Version)
    requires Indent(pre) && Indent(sp1) && Indent(sp2)
    requires 0 < |v| && IsDigit(v[0]) && forall k :: 0 <= k < |v| ==> IsVersionChar(v[k])
    requires Parse(v).Some?
    ensures ReplaceProjectVersionFromLine(ProjectHead(pre, sp1, sp2) + v, name) == ProjectHead(pre, sp1, sp2) + ToString(name)
  {
    var head := ProjectHead(pre, sp1, sp2);
    var line := head + v;
    ProjectLineSpan(pre, sp1, sp2, v);
    ProjectLineFound(pre, sp1, sp2, v);
    ProjectHeadText(pre, sp1, sp2);
    assert ToString(ParseProjectVersionFromLine(line).value) == v;
    forall j | 0 <= j <= |line| && OccursAt(line, v, j) ensures j == |head| {
      if j < |head| {
        assert false;
      }
    }
    ReplaceProjectOnce(line, name);
    assert line[..|head|] == head;
    assert line[|line|..] == [];
  }

  /**
   * An indented `versionCode N` line of a document is read as N, yields no
   * version, and is written with the current build number.
   */
  lemma CodeLineRender(pre: string, d: string, code: U32, name: Version)
    requires Indent(pre) && 0 < |d| && AllDigits(d) && DecimalValue(d) <= U32_MAX
    ensures var line := pre + CodeKey + " " + d;
      && CodeFits(line) && ParseVersionCodeLine(line) == Some(DecimalValue(d))
      && ParseVersionNameLine(line).None?
      && RenderLine(line, code, name) == pre + CodeKey + " " + DecimalString(code)
  {
    CodeLine(pre, d, code);
    CodeLineNoName(pre, d);
    CodeLineNoName(pre, DecimalString(code));
  }

  /**
   * An indented `versionName "S"` line holding a valid version yields no
   * build number, is read as that version, and is written with the current
   * version.
   */
  lemma NameLineRender(pre: string, v: string, code: U32, name: Version)
    requires Indent(pre) && 0 < |v| && forall k :: 0 <= k < |v| ==> IsVersionChar(v[k])
    requires Parse(v).Some?
    ensures var line := pre + NameKey + " \"" + v + "\"";
      && CodeFits(line) && ParseVersionCodeLine(line).None?
      && ParseVersionNameLine(line) == Parse(v)
      && RenderLine(line, code, name) == pre + NameKey + " \"" + ToString(name) + "\""
  {
    NameLineNoCode(pre, v);
    NameLineFound(pre, v);
    NameLine(pre, v, name);
  }

  /** The value the properties line tests start from. */
  predicate ValueText(v: string) {
    0 < |v| && IsDigit(v[0]) && (forall k :: 0 <= k < |v| ==> IsVersionChar(v[k])) && Parse(v).Some?
  }

  lemma Value123()
    ensures ValueText("1.2.3")
  {
    Text123();
  }

  /** The indentations of the properties line tests. */
  lemma Indents()
    ensures Indent("") && Indent(" ") && Indent("  ") && Indent("   ")
  {
  }

  /** A line of that shape, named, is rewritten to the line named `out`. */
  lemma ProjectRewrite(line: string, out: string, pre: string, sp1: string, sp2: string, v: string, name: Version)
    requires Indent(pre) && Indent(sp1) && Indent(sp2) && ValueText(v)
    requires line == ProjectHead(pre, sp1, sp2) + v && out == ProjectHead(pre, sp1, sp2) + ToString(name)
    ensures ReplaceProjectVersionFromLine(line, name) == out
  {
    ProjectLine(pre, sp1, sp2, v, name);
  }

  // ---------------------------------------------------------------------
  // The line tests of the build-script dialect

  /**
   * The test lines, spelled as the shapes above. Each literal line gets a
   * lemma of its own (as do the numerals below), so that a proof using one
   * does not carry the other literals into the verifier's context.
   */
  lemma SpelledCodeTwo()
    ensures "" + CodeKey + " " + "2" == "versionCode 2"
  {
  }

  lemma SpelledCodeThree()
    ensures "" + CodeKey + " " + "3" == "versionCode 3"
  {
  }

  lemma SpelledCode1234()
    ensures "    " + CodeKey + " " + "1234" == "    versionCode 1234"
  {
  }

  lemma SpelledCode12()
    ensures "    " + CodeKey + " " + "12" == "    versionCode 12"
  {
  }

  lemma SpelledCode78()
    ensures "    " + CodeKey + " " + "78" == "    versionCode 78"
  {
  }

  lemma SpelledName100()
    ensures "" + NameKey + " \"" + "1.0.0" + "\"" == "versionName \"1.0.0\""
  {
  }

  lemma SpelledName34123()
    ensures "" + NameKey + " \"" + "3.4.123" + "\"" == "versionName \"3.4.123\""
  {
  }

  lemma SpelledNameWide()
    ensures "" + NameKey + " \"" + "123.456.789" + "\"" == "versionName \"123.456.789\""
  {
  }

  lemma SpelledName123()
    ensures "" + NameKey + " \"" + "1.2.3" + "\"" == "versionName \"1.2.3\""
  {
  }

  /** A version whose components print as `a`, `b` and `c` prints as `a.b.c`, and that text parses back to it. */
  lemma VersionText(v: Version, a: string, b: string, c: string, text: string)
    requires DecimalString(v.major) == a && DecimalString(v.minor) == b && DecimalString(v.patch) == c
    requires a + "." + b + "." + c == text
    ensures ToString(v) == text && Parse(text) == Some(v)
  {
    ParseToString(v);
  }

  /** The three-digit numerals of the tests. */
  lemma Numeral123()
    ensures DecimalString(123) == "123"
  {
  }

  lemma Numeral456()
    ensures DecimalString(456) == "456"
  {
  }

  lemma Numeral789()
    ensures DecimalString(789) == "789"
  {
  }

  /** A numeral of the tests, read back as its value. */
  lemma NumeralSpelled(n: nat, d: string)
    requires DecimalString(n) == d
    ensures AllDigits(d) && DecimalValue(d) == n
  {
  }

  /** The version texts the tests use most. */
  lemma Text123()
    ensures ToString(Version(1, 2, 3)) == "1.2.3" && Parse("1.2.3") == Some(Version(1, 2, 3))
  {
    VersionText(Version(1, 2, 3), "1", "2", "3", "1.2.3");
  }

  lemma Text130()
    ensures ToString(Version(1, 3, 0)) == "1.3.0" && Parse("1.3.0") == Some(Version(1, 3, 0))
  {
    VersionText(Version(1, 3, 0), "1", "3", "0", "1.3.0");
  }

  lemma Text120()
    ensures ToString(Version(1, 2, 0)) == "1.2.0" && Parse("1.2.0") == Some(Version(1, 2, 0))
  {
    VersionText(Version(1, 2, 0), "1", "2", "0", "1.2.0");
  }

  lemma Text100()
    ensures ToString(Version(1, 0, 0)) == "1.0.0" && Parse("1.0.0") == Some(Version(1, 0, 0))
  {
    VersionText(Version(1, 0, 0), "1", "0", "0", "1.0.0");
  }

  lemma TextWide()
    ensures ToString(Version(123, 456, 789)) == "123.456.789" && Parse("123.456.789") == Some(Version(123, 456, 789))
  {
    Numeral123();
    Numeral456();
    Numeral789();
    VersionText(Version(123, 456, 789), "123", "456", "789", "123.456.789");
  }

  /** "versionCode 2" yields 2. */
  lemma CodeTwo()
    ensures CodeFits("versionCode 2") && ParseVersionCodeLine("versionCode 2") == Some(2)
  {
    NumeralSpelled(2, "2");
    CodeLine("", "2", 2);
    SpelledCodeTwo();
  }

  /** "    versionCode 1234" yields 1234, whatever the indentation. */
  lemma IndentedCode()
    ensures CodeFits("    versionCode 1234") && ParseVersionCodeLine("    versionCode 1234") == Some(1234)
  {
    NumeralSpelled(1234, "1234");
    CodeLine("    ", "1234", 2);
    SpelledCode1234();
  }

  /** `versionName "1.0.0"` yields 1.0.0. */
  lemma NameOneZeroZero()
    ensures ParseVersionNameLine("versionName \"1.0.0\"") == Some(Version(1, 0, 0))
  {
    Text100();
    NameLineFound("", "1.0.0");
    SpelledName100();
  }

  /** `versionName "3.4.123"` yields 3.4.123. */
  lemma NameThreeFour()
    ensures ParseVersionNameLine("versionName \"3.4.123\"") == Some(Version(3, 4, 123))
  {
    Numeral123();
    VersionText(Version(3, 4, 123), "3", "4", "123", "3.4.123");
    NameLineFound("", "3.4.123");
    SpelledName34123();
  }

  /** "versionCode 2" rewritten for build number 3 is "versionCode 3". */
  lemma ReplaceCodeTwo()
    ensures CodeFits("versionCode 2") && ReplaceVersionCode("versionCode 2", 3) == "versionCode 3"
  {
    NumeralSpelled(2, "2");
    NumeralSpelled(3, "3");
    CodeLine("", "2", 3);
    SpelledCodeTwo();
    SpelledCodeThree();
  }

  /** "    versionCode 12" rewritten for build number 78 is "    versionCode 78": the indentation is kept. */
  lemma ReplaceIndentedCode()
    ensures CodeFits("    versionCode 12") && ReplaceVersionCode("    versionCode 12", 78) == "    versionCode 78"
  {
    NumeralSpelled(12, "12");
    NumeralSpelled(78, "78");
    CodeLine("    ", "12", 78);
    SpelledCode12();
    SpelledCode78();
  }

  /** `versionName "1.0.0"` rewritten for 1.2.3 is `versionName "1.2.3"`. */
  lemma ReplaceNameOne()
    ensures ReplaceVersionName("versionName \"1.0.0\"", Version(1, 2, 3)) == "versionName \"1.2.3\""
  {
    Text100();
    Text123();
    NameLine("", "1.0.0", Version(1, 2, 3));
    SpelledName100();
    SpelledName123();
  }

  /** `versionName "123.456.789"` rewritten for 1.2.3 is `versionName "1.2.3"`: a smaller version is written all the same. */
  lemma ReplaceNameWide()
    ensures ReplaceVersionName("versionName \"123.456.789\"", Version(1, 2, 3)) == "versionName \"1.2.3\""
  {
    Text123();
    TextWide();
    NameLine("", "123.456.789", Version(1, 2, 3));
    SpelledNameWide();
    SpelledName123();
  }

  /** "hello world" is left as it is by both rewrites. */
  lemma ReplaceHelloWorld()
    ensures CodeFits("hello world") && ReplaceVersionCode("hello world", 78) == "hello world"
    ensures ReplaceVersionName("hello world", Version(1, 2, 3)) == "hello world"
  {
    HelloWorld();
  }

  // ---------------------------------------------------------------------
  // The document tests of the build-script dialect

  /** The lines of the build script of the document tests, as `BufRead::lines` cuts it. */
  const AndroidOpen: string := "    android {"
  const ConfigOpen: string := "        defaultConfig {"
  const ConfigClose: string := "        }"
  const AndroidClose: string := "    }"
  const Deep: string := "            "
  const CodeTwoLine: string := "            versionCode 2"
  const CodeThreeLine: string := "            versionCode 3"
  const NameOldLine: string := "            versionName \"1.1.2\""
  const NameNewLine: string := "            versionName \"1.2.0\""

  /** The build script: a blank first line, then the `android` block. */
  const Android: seq<string> := ["", AndroidOpen, ConfigOpen, CodeTwoLine, NameOldLine, ConfigClose, AndroidClose]

  /** The same script once synchronised to 1.2.0. */
  const AndroidSynced: seq<string> := ["", AndroidOpen, ConfigOpen, CodeThreeLine, NameNewLine, ConfigClose, AndroidClose]

  /** A line the document leaves alone: no match of either kind. */
  predicate Inert(line: string) {
    && FindCode(line).None? && CodeFits(line) && ParseVersionCodeLine(line).None?
    && ParseVersionNameLine(line).None?
  }

  /** The lines of the `android` block that hold no keyword. */
  lemma BlankInert()
    ensures Inert("")
  {
    NoKeyword("");
  }

  lemma AndroidOpenInert()
    ensures Inert(AndroidOpen)
  {
    NoKeyword(AndroidOpen);
  }

  lemma ConfigOpenInert()
    ensures Inert(ConfigOpen)
  {
    NoKeyword(ConfigOpen);
  }

  lemma ConfigCloseInert()
    ensures Inert(ConfigClose)
  {
    NoKeyword(ConfigClose);
  }

  lemma AndroidCloseInert()
    ensures Inert(AndroidClose)
  {
    NoKeyword(AndroidClose);
  }

  lemma AndroidFrame()
    ensures Inert("") && Inert(AndroidOpen) && Inert(ConfigOpen)
    ensures Inert(ConfigClose) && Inert(AndroidClose)
  {
    BlankInert();
    AndroidOpenInert();
    ConfigOpenInert();
    ConfigCloseInert();
    AndroidCloseInert();
  }

  /** The two version lines, spelled as the shapes above. */
  lemma AndroidCodesSpelled()
    ensures CodeTwoLine == Deep + CodeKey + " " + "2"
    ensures CodeThreeLine == Deep + CodeKey + " " + "3"
  {
  }

  lemma AndroidOldNameSpelled()
    ensures NameOldLine == Deep + NameKey + " \"" + "1.1.2" + "\""
  {
  }

  lemma AndroidNewNameSpelled()
    ensures NameNewLine == Deep + NameKey + " \"" + "1.2.0" + "\""
  {
  }

  /** The build-number line reads as 2 and is written as `versionCode 3` for build number 3. */
  lemma AndroidCodeLine()
    ensures CodeFits(CodeTwoLine) && ParseVersionCodeLine(CodeTwoLine) == Some(2)
    ensures ParseVersionNameLine(CodeTwoLine).None?
    ensures RenderLine(CodeTwoLine, 3, Version(1, 2, 0)) == CodeThreeLine
  {
    NumeralSpelled(2, "2");
    NumeralSpelled(3, "3");
    CodeLineRender(Deep, "2", 3, Version(1, 2, 0));
    AndroidCodesSpelled();
  }

  /** The version line reads as 1.1.2 and is written as `versionName "1.2.0"` for 1.2.0. */
  lemma AndroidNameLine()
    ensures CodeFits(NameOldLine) && ParseVersionCodeLine(NameOldLine).None?
    ensures ParseVersionNameLine(NameOldLine) == Some(Version(1, 1, 2))
    ensures RenderLine(NameOldLine, 3, Version(1, 2, 0)) == NameNewLine
  {
    VersionText(Version(1, 1, 2), "1", "1", "2", "1.1.2");
    Text120();
    NameLineRender(Deep, "1.1.2", 3, Version(1, 2, 0));
    AndroidOldNameSpelled();
    AndroidNewNameSpelled();
  }

  /**
   * A script of the tests' layout: three lines without a match, the
   * build-number line, the version line, and two more lines without a match.
   */
  predicate ScriptLayout(doc: seq<string>) {
    && |doc| == 7
    && Inert(doc[0]) && Inert(doc[1]) && Inert(doc[2]) && Inert(doc[5]) && Inert(doc[6])
    && CodeFits(doc[3]) && ParseVersionCodeLine(doc[3]).Some? && ParseVersionNameLine(doc[3]).None?
    && CodeFits(doc[4]) && ParseVersionCodeLine(doc[4]).None? && ParseVersionNameLine(doc[4]).Some?
  }

  /** Such a script is read from its two version lines. */
  lemma ScriptRead(doc: seq<string>)
    requires ScriptLayout(doc)
    ensures CodesParse(doc)
    ensures FirstCode(doc) == ParseVersionCodeLine(doc[3]) && FirstName(doc) == ParseVersionNameLine(doc[4])
  {
    forall j | 0 <= j < 4
      ensures CodeFits(doc[j]) && ParseVersionNameLine(doc[j]).None?
      ensures j < 3 ==> ParseVersionCodeLine(doc[j]).None?
    {
      assert j == 0 || j == 1 || j == 2 || j == 3;
    }
    FirstAt(doc, ParseVersionCodeLine, 3);
    NamesParse(doc);
    FirstAt(doc, ParseVersionNameLine, 4);
  }

  /** Seven lines of those kinds, in that order, have that layout. */
  lemma ScriptOf(a: string, b: string, c: string, code: string, name: string, f: string, g: string)
    requires Inert(a) && Inert(b) && Inert(c) && Inert(f) && Inert(g)
    requires CodeFits(code) && ParseVersionCodeLine(code).Some? && ParseVersionNameLine(code).None?
    requires CodeFits(name) && ParseVersionCodeLine(name).None? && ParseVersionNameLine(name).Some?
    ensures ScriptLayout([a, b, c, code, name, f, g])
  {
    var doc := [a, b, c, code, name, f, g];
    assert doc[0] == a && doc[1] == b && doc[2] == c && doc[3] == code;
    assert doc[4] == name && doc[5] == f && doc[6] == g;
  }

  /** The build script of the tests has that layout. */
  lemma AndroidLayout()
    ensures ScriptLayout(Android)
  {
    AndroidFrame();
    AndroidCodeLine();
    AndroidNameLine();
    ScriptOf("", AndroidOpen, ConfigOpen, CodeTwoLine, NameOldLine, ConfigClose, AndroidClose);
  }

  /** Reading the script finds build number 2 and version 1.1.2, each from its own line. */
  lemma AndroidRead()
    ensures CodesParse(Android)
    ensures FirstCode(Android) == Some(2) && FirstName(Android) == Some(Version(1, 1, 2))
  {
    AndroidLayout();
    ScriptRead(Android);
    AndroidCodeLine();
    AndroidNameLine();
  }

  /** The elements of a seven-element display. */
  lemma Seven<T>(a: T, b: T, c: T, d: T, e: T, f: T, g: T)
    ensures var s := [a, b, c, d, e, f, g];
      |s| == 7 && s[0] == a && s[1] == b && s[2] == c && s[3] == d && s[4] == e && s[5] == f && s[6] == g
  {
  }

  /** A line that `lines()` emits unchanged. */
  predicate Kept(line: string, code: U32, name: Version) {
    CodeFits(line) && RenderLine(line, code, name) == line
  }

  /** Written out, seven lines of which five are kept change in the other two only. */
  lemma ScriptRender(a: string, b: string, c: string, cl: string, nl: string, f: string, g: string, code: U32, name: Version)
    requires Kept(a, code, name) && Kept(b, code, name) && Kept(c, code, name)
    requires Kept(f, code, name) && Kept(g, code, name)
    requires CodeFits(cl) && CodeFits(nl)
    ensures var doc := [a, b, c, cl, nl, f, g];
      && AllCodesFit(doc)
      && BuildGradle.Render(doc, code, name) == [a, b, c, RenderLine(cl, code, name), RenderLine(nl, code, name), f, g]
  {
    var doc := [a, b, c, cl, nl, f, g];
    var e := [a, b, c, RenderLine(cl, code, name), RenderLine(nl, code, name), f, g];
    Seven(a, b, c, cl, nl, f, g);
    Seven(a, b, c, RenderLine(cl, code, name), RenderLine(nl, code, name), f, g);
    forall k | 0 <= k < 7 ensures CodeFits(doc[k]) && RenderLine(doc[k], code, name) == e[k] {
      if k == 0 {
      } else if k == 1 {
      } else if k == 2 {
      } else if k == 3 {
      } else if k == 4 {
      } else if k == 5 {
      } else {
      }
    }
    RenderPointwise(doc, e, code, name);
  }

  /** A script is written as the lines that its lines are each written as. */
  lemma RenderPointwise(doc: seq<string>, e: seq<string>, code: U32, name: Version)
    requires |e| == |doc|
    requires forall k :: 0 <= k < |doc| ==> CodeFits(doc[k]) && RenderLine(doc[k], code, name) == e[k]
    ensures AllCodesFit(doc) && BuildGradle.Render(doc, code, name) == e
  {
  }

  /** The lines of the `android` block without a keyword are kept by any rewrite. */
  lemma AndroidFrameKept(code: U32, name: Version)
    ensures Kept("", code, name) && Kept(AndroidOpen, code, name) && Kept(ConfigOpen, code, name)
    ensures Kept(ConfigClose, code, name) && Kept(AndroidClose, code, name)
  {
    AndroidFrame();
    RenderUntouched("", code, name);
    RenderUntouched(AndroidOpen, code, name);
    RenderUntouched(ConfigOpen, code, name);
    RenderUntouched(ConfigClose, code, name);
    RenderUntouched(AndroidClose, code, name);
  }

  /** Written with build number 3 and version 1.2.0, the script changes in its two version lines only. */
  lemma AndroidRender()
    ensures AllCodesFit(Android) && BuildGradle.Render(Android, 3, Version(1, 2, 0)) == AndroidSynced
  {
    AndroidFrameKept(3, Version(1, 2, 0));
    AndroidCodeLine();
    AndroidNameLine();
    ScriptRender("", AndroidOpen, ConfigOpen, CodeTwoLine, NameOldLine, ConfigClose, AndroidClose, 3, Version(1, 2, 0));
  }

  /** Seven lines written out: each followed by one line feed. */
  lemma {:induction false} SerializeSeven(a: string, b: string, c: string, d: string, e: string, f: string, g: string)
    ensures Serialize([a, b, c, d, e, f, g])
      == a + "\n" + (b + "\n" + (c + "\n" + (d + "\n" + (e + "\n" + (f + "\n" + (g + "\n"))))))
  {
    var doc := [a, b, c, d, e, f, g];
    assert doc[1..] == [b, c, d, e, f, g];
    assert doc[2..] == [c, d, e, f, g];
    assert doc[3..] == [d, e, f, g];
    assert doc[4..] == [e, f, g];
    assert doc[5..] == [f, g];
    assert doc[6..] == [g];
    assert doc[7..] == [];
    var t6 := g + "\n";
    assert Serialize(doc[6..]) == t6;
    var t5 := f + "\n" + t6;
    assert Serialize(doc[5..]) == t5;
    var t4 := e + "\n" + t5;
    assert Serialize(doc[4..]) == t4;
    var t3 := d + "\n" + t4;
    assert Serialize(doc[3..]) == t3;
    var t2 := c + "\n" + t3;
    assert Serialize(doc[2..]) == t2;
    var t1 := b + "\n" + t2;
    assert Serialize(doc[1..]) == t1;
    assert Serialize(doc) == a + "\n" + t1;
  }

  /**
   * The synchronised script as text: the blank first line, the block with
   * its new version lines, and a line feed after the closing brace.
   */
  lemma AndroidSyncedText()
    ensures Serialize(AndroidSynced)
      == "\n" + (AndroidOpen + "\n" + (ConfigOpen + "\n" + (CodeThreeLine + "\n"
       + (NameNewLine + "\n" + (ConfigClose + "\n" + (AndroidClose + "\n"))))))
  {
    SerializeSeven("", AndroidOpen, ConfigOpen, CodeThreeLine, NameNewLine, ConfigClose, AndroidClose);
  }

  /** Six lines of those kinds without a build-number line: reading finds no build number. */
  lemma ScriptWithoutCode(a: string, b: string, c: string, nl: string, f: string, g: string)
    requires Inert(a) && Inert(b) && Inert(c) && Inert(f) && Inert(g)
    requires CodeFits(nl) && ParseVersionCodeLine(nl).None?
    ensures CodesParse([a, b, c, nl, f, g]) && FirstCode([a, b, c, nl, f, g]).None?
  {
    var doc := [a, b, c, nl, f, g];
    forall j | 0 <= j < 6 ensures CodeFits(doc[j]) && ParseVersionCodeLine(doc[j]).None? {
      if j == 0 {
        assert doc[j] == a;
      } else if j == 1 {
        assert doc[j] == b;
      } else if j == 2 {
        assert doc[j] == c;
      } else if j == 3 {
        assert doc[j] == nl;
      } else if j == 4 {
        assert doc[j] == f;
      } else {
        assert doc[j] == g;
      }
    }
    FirstNone(doc, ParseVersionCodeLine);
  }

  /** Six lines of those kinds without a version line: reading finds the build number and no version. */
  lemma ScriptWithoutName(a: string, b: string, c: string, cl: string, f: string, g: string)
    requires Inert(a) && Inert(b) && Inert(c) && Inert(f) && Inert(g)
    requires CodeFits(cl) && ParseVersionCodeLine(cl).Some? && ParseVersionNameLine(cl).None?
    ensures CodesParse([a, b, c, cl, f, g]) && FirstCode([a, b, c, cl, f, g]).Some?
    ensures FirstName([a, b, c, cl, f, g]).None?
  {
    var doc := [a, b, c, cl, f, g];
    forall j | 0 <= j < 3 ensures CodeFits(doc[j]) && ParseVersionCodeLine(doc[j]).None? {
      if j == 0 {
        assert doc[j] == a;
      } else if j == 1 {
        assert doc[j] == b;
      } else {
        assert doc[j] == c;
      }
    }
    assert doc[3] == cl;
    FirstAt(doc, ParseVersionCodeLine, 3);
    ScriptNamesAbsent(a, b, c, cl, f, g);
  }

  /** Six lines none of which holds a version. */
  lemma ScriptNamesAbsent(a: string, b: string, c: string, d: string, f: string, g: string)
    requires Inert(a) && Inert(b) && Inert(c) && Inert(f) && Inert(g)
    requires ParseVersionNameLine(d).None?
    ensures FirstName([a, b, c, d, f, g]).None?
  {
    var doc := [a, b, c, d, f, g];
    forall j | 0 <= j < 6 ensures ParseVersionNameLine(doc[j]).None? {
      if j == 0 {
        assert doc[j] == a;
      } else if j == 1 {
        assert doc[j] == b;
      } else if j == 2 {
        assert doc[j] == c;
      } else if j == 3 {
        assert doc[j] == d;
      } else if j == 4 {
        assert doc[j] == f;
      } else {
        assert doc[j] == g;
      }
    }
    NamesParse(doc);
    FirstNone(doc, ParseVersionNameLine);
  }

  /** The script of the tests without its `versionCode` line. */
  const AndroidWithoutCode: seq<string> := ["", AndroidOpen, ConfigOpen, NameOldLine, ConfigClose, AndroidClose]

  /** The script of the tests without its `versionName` line. */
  const AndroidWithoutName: seq<string> := ["", AndroidOpen, ConfigOpen, CodeTwoLine, ConfigClose, AndroidClose]

  lemma AndroidWithoutCodeRead()
    ensures CodesParse(AndroidWithoutCode) && FirstCode(AndroidWithoutCode).None?
  {
    AndroidFrame();
    AndroidNameLine();
    ScriptWithoutCode("", AndroidOpen, ConfigOpen, NameOldLine, ConfigClose, AndroidClose);
  }

  lemma AndroidWithoutNameRead()
    ensures CodesParse(AndroidWithoutName) && FirstCode(AndroidWithoutName).Some?
    ensures FirstName(AndroidWithoutName).None?
  {
    AndroidFrame();
    AndroidCodeLine();
    ScriptWithoutName("", AndroidOpen, ConfigOpen, CodeTwoLine, ConfigClose, AndroidClose);
  }

  /** Reading the script gives an unmodified document with build number 2 and version 1.1.2. */
  method ReadScript() returns (modified: bool, code: U32, name: Version)
    ensures !modified && code == 2 && name == Version(1, 1, 2)
  {
    AndroidRead();
    var r := BuildGradleContent.From(Android);
    var content := r.value;
    modified, code, name := content.modified, content.version.code, content.version.name;
  }

  /** A script without a `versionCode` line is refused, for that reason. */
  method ReadScriptWithoutCode() returns (r: Result<BuildGradleContent>)
    ensures r == Err(VersionNotFound("failed to find versionCode"))
  {
    AndroidWithoutCodeRead();
    r := BuildGradleContent.From(AndroidWithoutCode);
  }

  /** A script without a `versionName` line is refused, for that reason. */
  method ReadScriptWithoutName() returns (r: Result<BuildGradleContent>)
    ensures r == Err(VersionNotFound("failed to find versionName"))
  {
    AndroidWithoutNameRead();
    r := BuildGradleContent.From(AndroidWithoutName);
  }

  /**
   * Synchronising the script to the version it holds leaves it unmodified;
   * synchronising it to a higher one then marks it modified.
   */
  method ModifiedOnlyWhenHigher() returns (afterSame: bool, afterHigher: bool)
    ensures !afterSame && afterHigher
  {
    AndroidRead();
    var r := BuildGradleContent.From(Android);
    var content := r.value;
    var same := content.SyncVersion(Version(1, 1, 2));
    afterSame := content.modified;
    var higher := content.SyncVersion(Version(1, 2, 0));
    afterHigher := content.modified;
  }

  /** Synchronised to 1.2.0, the script is written with build number 3 and version 1.2.0. */
  method WriteScript() returns (text: string)
    ensures text == Serialize(AndroidSynced)
  {
    AndroidRead();
    var r := BuildGradleContent.From(Android);
    var content := r.value;
    var synced := content.SyncVersion(Version(1, 2, 0));
    AndroidRender();
    text := Serialize(content.Lines());
  }

  /** The stand-alone buffer, read, synchronised to 1.2.0 and written to an empty writer, writes the same text. */
  method WriteBuffer() returns (text: string)
    ensures text == Serialize(AndroidSynced)
  {
    AndroidRead();
    var r := GradleBuffer.From(Android);
    var buffer := r.value;
    var synced := buffer.SynchronizeVersion(Version(1, 2, 0));
    AndroidRender();
    text := buffer.Write("");
  }

  // ---------------------------------------------------------------------
  // The tests of the properties dialect

  /** The lines of the properties line tests. */
  const Plain123: string := "projectVersion=1.2.3"
  const Spaced123: string := "projectVersion = 1.2.3"
  const Indented123: string := "   projectVersion = 1.2.3"
  const Plain130: string := "projectVersion=1.3.0"
  const Spaced130: string := "projectVersion = 1.3.0"
  const Shallow123: string := "  projectVersion = 1.2.3"
  const Shallow130: string := "  projectVersion = 1.3.0"

  /** The test lines, spelled as the shape above. */
  lemma SpelledPlainOld()
    ensures ProjectHead("", "", "") + "1.2.3" == Plain123
  {
  }

  lemma SpelledSpacedOld()
    ensures ProjectHead("", " ", " ") + "1.2.3" == Spaced123
  {
  }

  lemma SpelledIndentedOld()
    ensures ProjectHead("   ", " ", " ") + "1.2.3" == Indented123
  {
  }

  lemma SpelledPlainNew()
    ensures ProjectHead("", "", "") + "1.3.0" == Plain130
  {
  }

  lemma SpelledSpacedNew()
    ensures ProjectHead("", " ", " ") + "1.3.0" == Spaced130
  {
  }

  lemma SpelledShallowOld()
    ensures ProjectHead("  ", " ", " ") + "1.2.3" == Shallow123
  {
  }

  lemma SpelledShallowNew()
    ensures ProjectHead("  ", " ", " ") + "1.3.0" == Shallow130
  {
  }

  /** "projectVersion=1.2.3" yields 1.2.3. */
  lemma ProjectPlain()
    ensures ParseProjectVersionFromLine(Plain123) == Some(Version(1, 2, 3))
  {
    Text123();
    ProjectLineFound("", "", "", "1.2.3");
    SpelledPlainOld();
  }

  /** "projectVersion = 1.2.3" yields 1.2.3: spaces around `=` are allowed. */
  lemma ProjectSpaced()
    ensures ParseProjectVersionFromLine(Spaced123) == Some(Version(1, 2, 3))
  {
    Text123();
    ProjectLineFound("", " ", " ", "1.2.3");
    SpelledSpacedOld();
  }

  /** "   projectVersion = 1.2.3" yields 1.2.3: so is indentation. */
  lemma ProjectIndented()
    ensures ParseProjectVersionFromLine(Indented123) == Some(Version(1, 2, 3))
  {
    Text123();
    ProjectLineFound("   ", " ", " ", "1.2.3");
    SpelledIndentedOld();
  }

  /** "projectVersion=1.2.3" rewritten for 1.3.0 is "projectVersion=1.3.0". */
  lemma ReplaceProjectPlain()
    ensures ReplaceProjectVersionFromLine(Plain123, Version(1, 3, 0)) == Plain130
  {
    Indents();
    Value123();
    Text130();
    SpelledPlainOld();
    SpelledPlainNew();
    ProjectRewrite(Plain123, Plain130, "", "", "", "1.2.3", Version(1, 3, 0));
  }

  /** "projectVersion = 1.2.3" rewritten for 1.3.0 keeps its spacing. */
  lemma ReplaceProjectSpaced()
    ensures ReplaceProjectVersionFromLine(Spaced123, Version(1, 3, 0)) == Spaced130
  {
    Indents();
    Value123();
    Text130();
    SpelledSpacedOld();
    SpelledSpacedNew();
    ProjectRewrite(Spaced123, Spaced130, "", " ", " ", "1.2.3", Version(1, 3, 0));
  }

  /** "  projectVersion = 1.2.3" rewritten for 1.3.0 keeps its indentation. */
  lemma ReplaceProjectIndented()
    ensures ReplaceProjectVersionFromLine(Shallow123, Version(1, 3, 0)) == Shallow130
  {
    Indents();
    Value123();
    Text130();
    SpelledShallowOld();
    SpelledShallowNew();
    ProjectRewrite(Shallow123, Shallow130, "  ", " ", " ", "1.2.3", Version(1, 3, 0));
  }

  /** The lines of the properties documents of the tests. */
  const Pad: string := "    "
  const ProjectOldLine: string := "    projectVersion=1.2.0"
  const ProjectNewLine: string := "    projectVersion=1.3.4"
  const HelloAssign: string := "    hello world=12.3.4"
  const Gibberish: string := "    lsadkfjasdlfj"

  /** The properties document: a blank line, the version line, an indentation-only line. */
  const Props: seq<string> := ["", ProjectOldLine, Pad]

  /** The same document once synchronised to 1.3.4. */
  const PropsSynced: seq<string> := ["", ProjectNewLine, Pad]

  /** A document without a `projectVersion` line. */
  const PropsWithoutVersion: seq<string> := ["", HelloAssign, Gibberish, Pad]

  lemma SpelledProjectOld()
    ensures ProjectHead("    ", "", "") + "1.2.0" == ProjectOldLine
  {
  }

  lemma SpelledProjectNew()
    ensures ProjectHead("    ", "", "") + "1.3.4" == ProjectNewLine
  {
  }

  /** The version line reads as 1.2.0 and is written as `projectVersion=1.3.4` for 1.3.4. */
  lemma PropsVersionLine()
    ensures ParseProjectVersionFromLine(ProjectOldLine) == Some(Version(1, 2, 0))
    ensures ReplaceProjectVersionFromLine(ProjectOldLine, Version(1, 3, 4)) == ProjectNewLine
  {
    Text120();
    VersionText(Version(1, 3, 4), "1", "3", "4", "1.3.4");
    ProjectLine("    ", "", "", "1.2.0", Version(1, 3, 4));
    ProjectLineFound("    ", "", "", "1.2.0");
    SpelledProjectOld();
    SpelledProjectNew();
  }

  /** The lines without the keyword. */
  lemma PropsFrame()
    ensures ParseProjectVersionFromLine("").None? && ParseProjectVersionFromLine(Pad).None?
  {
    NoKeyword("");
    NoKeyword(Pad);
  }

  lemma HelloAssignAbsent()
    ensures ParseProjectVersionFromLine(HelloAssign).None?
  {
    NoKeyword(HelloAssign);
  }

  lemma GibberishAbsent()
    ensures ParseProjectVersionFromLine(Gibberish).None?
  {
    NoKeyword(Gibberish);
  }

  /** Three lines of which only the second holds a version: reading finds that version. */
  lemma ThreeRead(a: string, b: string, c: string)
    requires ParseProjectVersionFromLine(a).None? && ParseProjectVersionFromLine(b).Some?
    ensures FirstProject([a, b, c]) == ParseProjectVersionFromLine(b)
  {
    var doc := [a, b, c];
    assert doc[0] == a && doc[1] == b;
    ProjectsParse(doc);
    FirstAt(doc, ParseProjectVersionFromLine, 1);
  }

  /** Four lines none of which holds a version: reading finds none. */
  lemma FourAbsent(a: string, b: string, c: string, d: string)
    requires ParseProjectVersionFromLine(a).None? && ParseProjectVersionFromLine(b).None?
    requires ParseProjectVersionFromLine(c).None? && ParseProjectVersionFromLine(d).None?
    ensures FirstProject([a, b, c, d]).None?
  {
    var doc := [a, b, c, d];
    forall j | 0 <= j < 4 ensures ParseProjectVersionFromLine(doc[j]).None? {
      if j == 0 {
        assert doc[j] == a;
      } else if j == 1 {
        assert doc[j] == b;
      } else if j == 2 {
        assert doc[j] == c;
      } else {
        assert doc[j] == d;
      }
    }
    ProjectsParse(doc);
    FirstNone(doc, ParseProjectVersionFromLine);
  }

  /** Written out, three lines of which only the second holds a version change in that line only. */
  lemma ThreeRender(a: string, b: string, c: string, name: Version)
    requires ParseProjectVersionFromLine(a).None? && ParseProjectVersionFromLine(c).None?
    ensures Properties.Render([a, b, c], name) == [a, ReplaceProjectVersionFromLine(b, name), c]
  {
    var doc := [a, b, c];
    var r := Properties.Render(doc, name);
    var e := [a, ReplaceProjectVersionFromLine(b, name), c];
    forall k | 0 <= k < 3 ensures r[k] == e[k] {
      if k == 0 {
        assert doc[k] == a == e[k];
      } else if k == 1 {
        assert doc[k] == b;
      } else {
        assert doc[k] == c == e[k];
      }
    }
    assert r == e;
  }

  /** Three lines written out: each followed by one line feed. */
  lemma SerializeThree(a: string, b: string, c: string)
    ensures Serialize([a, b, c]) == a + "\n" + (b + "\n" + (c + "\n"))
  {
    var doc := [a, b, c];
    assert doc[1..] == [b, c];
    assert doc[2..] == [c];
    assert doc[3..] == [];
    assert Serialize(doc[2..]) == c + "\n";
    assert Serialize(doc[1..]) == b + "\n" + (c + "\n");
  }

  /** Reading the properties document finds 1.2.0. */
  lemma PropsRead()
    ensures FirstProject(Props) == Some(Version(1, 2, 0))
  {
    PropsFrame();
    PropsVersionLine();
    ThreeRead("", ProjectOldLine, Pad);
  }

  /** Written with 1.3.4, the document changes in its version line only. */
  lemma PropsRender()
    ensures Properties.Render(Props, Version(1, 3, 4)) == PropsSynced
  {
    PropsFrame();
    PropsVersionLine();
    ThreeRender("", ProjectOldLine, Pad, Version(1, 3, 4));
  }

  /** The synchronised document as text: the indentation-only last line is kept, with its line feed. */
  lemma PropsSyncedText()
    ensures Serialize(PropsSynced) == "\n" + (ProjectNewLine + "\n" + (Pad + "\n"))
  {
    SerializeThree("", ProjectNewLine, Pad);
  }

  /** Reading the properties document gives version 1.2.0. */
  method ReadProperties() returns (name: Version)
    ensures name == Version(1, 2, 0) && ToString(name) == "1.2.0"
  {
    PropsRead();
    Text120();
    var r := PropertiesContent.From(Props);
    name := r.value.version.name;
  }

  /** A document without a `projectVersion` line is refused. */
  method ReadPropertiesWithoutVersion() returns (r: Result<PropertiesContent>)
    ensures r == Err(VersionNotFound("failed to find projectVersion"))
  {
    PropsFrame();
    HelloAssignAbsent();
    GibberishAbsent();
    FourAbsent("", HelloAssign, Gibberish, Pad);
    r := PropertiesContent.From(PropsWithoutVersion);
  }

  /** Synchronised to 1.3.4, the properties document is written with its version line rewritten. */
  method WriteProperties() returns (text: string)
    ensures text == Serialize(PropsSynced)
  {
    PropsRead();
    var r := PropertiesContent.From(Props);
    var content := r.value;
    var synced := content.SyncVersion(Version(1, 3, 4));
    PropsRender();
    text := Serialize(content.Lines());
  }

  // ---------------------------------------------------------------------
  // The tests of the version pair

  /** A new pair holds the given build number and version. */
  method NewPair() returns (code: U32, text: string)
    ensures code == 1 && text == "0.1.0"
  {
    VersionText(Version(0, 1, 0), "0", "1", "0", "0.1.0");
    var version := new GradleVersion(1, Version(0, 1, 0));
    code, text := version.code, ToString(version.name);
  }

  /** Synchronising 0.1.0 to 0.1.1 succeeds, raises the build number and takes the new version. */
  method BumpOnHigher() returns (ok: bool, code: U32, name: Version)
    ensures ok && code > 1 && name == Version(0, 1, 1)
  {
    var version := new GradleVersion(1, Version(0, 1, 0));
    var r := version.Synchronize(Version(0, 1, 1));
    ok, code, name := r.Ok?, version.code, version.name;
  }

  /** Synchronising 0.1.0 to itself succeeds and keeps the build number. */
  method KeepOnSame() returns (ok: bool, code: U32, name: Version)
    ensures ok && code == 1 && name == Version(0, 1, 0)
  {
    var version := new GradleVersion(1, Version(0, 1, 0));
    var r := version.Synchronize(Version(0, 1, 0));
    ok, code, name := r.Ok?, version.code, version.name;
  }

  /** The diagnostic of the refused downgrade from 0.2.0 to 0.1.2. */
  lemma RefuseLowerMessage()
    ensures NotIncreasingMessage(Version(0, 2, 0), Version(0, 1, 2)) == "version not increasing (old)0.2.0 > (new)0.1.2"
  {
    VersionText(Version(0, 2, 0), "0", "2", "0", "0.2.0");
    VersionText(Version(0, 1, 2), "0", "1", "2", "0.1.2");
    RefuseLowerSpelled();
  }

  lemma RefuseLowerSpelled()
    ensures "version not increasing (old)" + "0.2.0" + " > (new)" + "0.1.2" == "version not increasing (old)0.2.0 > (new)0.1.2"
  {
  }

  /** Synchronising 0.2.0 to 0.1.2 is refused, with the message naming both versions. */
  method RefuseLower() returns (r: Result<bool>)
    ensures r == Err(VersionNotIncreasing("version not increasing (old)0.2.0 > (new)0.1.2"))
  {
    RefuseLowerMessage();
    var version := new GradleVersion(1, Version(0, 2, 0));
    r := version.Synchronize(Version(0, 1, 2));
  }
}

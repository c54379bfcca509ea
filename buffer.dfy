/**
 * `GradleBuffer`: an older, stand-alone reader and writer of `build.gradle`
 * documents. It reads the lines with the same two line parsers as
 * `BuildGradleContent`, synchronises its version without a dirty flag, and
 * writes every line, rewritten with the current build number and version,
 * followed by a line feed.
 */
module Buffer {
  import opened Text
  import opened Semver
  import opened Errors
  import opened VersionState
  import opened Scanning
  import opened BuildGradle

  class GradleBuffer {
    var lines: seq<string>
    const version: GradleVersion

    constructor (lines: seq<string>, code: U32, name: Version)
      ensures this.lines == lines && fresh(version)
      ensures version.code == code && version.name == name
    {
      this.lines := lines;
      this.version := new GradleVersion(code, name);
    }

    /**
     * `from`: one pass over the lines; fail when no line yields a build
     * number (checked first) or none yields a version.
     */
    static method From(input: seq<string>) returns (r: Result<GradleBuffer>)
      requires CodesParse(input)
      ensures FirstCode(input).None? ==> r == Err(VersionNotFound("failed to find versionCode"))
      ensures FirstCode(input).Some? && FirstName(input).None? ==> r == Err(VersionNotFound("failed to find versionName"))
      ensures FirstCode(input).Some? && FirstName(input).Some? ==>
        && r.Ok? && fresh(r.value) && fresh(r.value.version)
        && r.value.lines == input
        && r.value.version.code == FirstCode(input).value
        && r.value.version.name == FirstName(input).value
    {
      NamesParse(input);
      var lines, code, name := ScanTwo(input, ParseVersionCodeLine, ParseVersionNameLine);
      match Discover(code, name)
      case Err(e) =>
        r := Err(e);
      case Ok((c, n)) =>
        var buffer := new GradleBuffer(lines, c, n);
        r := Ok(buffer);
    }

    /** `synchronize_version`: the version's rule, with the "changed" answer dropped. */
    method SynchronizeVersion(target: Version) returns (r: Result<()>)
      requires Less(version.name, target) ==> version.code < U32_MAX
      modifies version
      ensures match SyncStep(old(version.code), old(version.name), target)
        case Err(e) =>
          r == Err(e) && version.code == old(version.code) && version.name == old(version.name)
        case Ok(o) =>
          r == Ok(()) && version.code == o.code && version.name == o.name
    {
      var changed := version.Synchronize(target);
      match changed
      case Err(e) =>
        r := Err(e);
      case Ok(_) =>
        r := Ok(());
    }

    /**
     * `write`: the writer is the text it has received so far; every stored
     * line, rewritten with the current build number and version, is appended
     * to it with a line feed after it.
     */
    method Write(sink: string) returns (out: string)
      requires AllCodesFit(lines)
      ensures out == sink + Serialize(Render(lines, version.code, version.name))
    {
      ghost var rendered := Render(lines, version.code, version.name);
      out := sink;
      var i := 0;
      while i < |lines|
        invariant 0 <= i <= |lines|
        invariant out == sink + Serialize(rendered[..i])
      {
        var line := ReplaceVersionCode(lines[i], version.code);
        line := ReplaceVersionName(line, version.name);
        assert line == rendered[i];
        TakeOneMore(rendered, i);
        WriteLine(sink, rendered[..i], line);
        out := out + line;
        out := out + "\n";
        i := i + 1;
      }
      assert rendered[..i] == rendered;
    }
  }
}

# gradle-sync: version state and line rewriting, in Dafny

This project models the core of gradle-sync. The tool keeps the version of
an Android or Gradle project in step with a target semantic version. It
reads a `build.gradle` script or a `gradle.properties` file line by line and
discovers the build number (`versionCode N`) and the version
(`versionName "X.Y.Z"`, or `projectVersion = X.Y.Z`). It applies a
no-regression rule: a strictly greater target bumps the build number by one,
an equal target changes nothing, and a smaller target is refused. It then
emits every line, rewritten with the current values.

The modules follow the source files:

- `VersionState` (`src/version.rs`) holds the `GradleVersion` class with its
  `Synchronize` method. Its rule is also a function (`SyncStep`), folded over
  a series of calls (`SyncAll`).
- `BuildGradle` (`src/buildgradle.rs`) holds the four line functions and the
  `BuildGradleContent` document class.
- `Buffer` (`src/buffer.rs`) holds the `GradleBuffer` class: reading,
  synchronising and writing. Its line functions are textual copies of the
  build-script ones, so the model uses the `BuildGradle` definitions for
  both.
- `Properties` (`src/properties.rs`) holds the `projectVersion` line
  functions and the `PropertiesContent` document class.

Shared modules:

- `Text`: character classes, greedy runs, leftmost search, decimal
  numerals, substring replacement and line serialisation.
- `Semver`: the three-part version, its order, its text form and its parser.
- `Errors`: the error kinds and `Result`.
- `Scanning`: the one-pass, first-occurrence reading loop used by all three
  document types.
- `Cases`: the repository's unit tests, both single lines and whole
  documents. They are stated as lemmas, and as methods that take the classes
  through each test's steps and state the expected outcome.

Each regular expression is modelled as a predicate "a match starts at
position i". The match the regex engine reports is the leftmost position
satisfying it (`Text.Leftmost`), and `\s+`, `\d+` and `[\d.]+` capture
maximal runs (`Text.RunEnd`).

Reading takes the document as a sequence of lines. Writing appends to a
string that stands for the writer.

Two behaviours of the code are easy to miss:

- `replace_version_code` does not keep the white space between `versionCode`
  and the number. It writes exactly one space (`src/buildgradle.rs:101`).
- `replace_project_version_from_line` replaces every occurrence of the old
  version's text in the line, not only the matched value
  (`src/properties.rs:76`).

## Model

| member | source | states |
|---|---|---|
| VersionState.SyncStep | src/version.rs:18-34 | A smaller target is refused with `VersionNotIncreasing("version not increasing (old)A > (new)B")`. A strictly greater target gives build number + 1, the target as the version, and "changed". Otherwise (an equal target) nothing changes and "unchanged" is reported. |
| VersionState.GradleVersion.constructor | src/version.rs:10-16 | The new object holds exactly the given build number and version. |
| VersionState.GradleVersion.Synchronize | src/version.rs:18-34 | The result and the new fields are those of `SyncStep`. On a refusal both fields keep their old values. Overflow past `u32::MAX` is excluded by the precondition. |
| VersionState.SyncAllMonotone | src/version.rs:18-34 | Over any series of calls, the build number rises by at most one per call and never falls. The version never decreases. The two change together, and "changed" holds exactly when the version moved. |
| VersionState.Settle | src/version.rs:18-34 | What one call leaves behind. A change raises the build number by exactly one and moves to a strictly greater version. Without a change, including after a refusal, both stay as they were. |
| VersionState.SyncAll | src/version.rs:18-34 | A series of a single call leaves what that call leaves. |
| VersionState.SyncAllAppend | src/version.rs:18-34 | Running two series of calls one after the other is running their concatenation. The result counts as "changed" when either part changed. |
| VersionState.SemVersionParse | src/version.rs:37-46 | Ok exactly when the text parses, and then the version prints back as that text. Otherwise `ParsingFailed("failed to parse version string '<s>'")`. |
| Semver.Trichotomy | src/version.rs:19-33 | Of "smaller", "equal" and "greater" exactly one holds, so the three branches of the rule cover every target. |
| Semver.Less | src/version.rs:19-27 | The order the rule compares with. A different major number decides it, and failing that a different minor number. A version is never smaller than itself. |
| Semver.ToString | src/version.rs:20-24 | The printed version starts with a digit and holds only digits and dots, so it is again a valid `[\d.]+` value. |
| Semver.Parse | src/buildgradle.rs:86-89 | A version read from a text prints back as that same text. |
| Semver.ParseToString | src/version.rs:37-46 | Parsing the printed form of any version gives that version back. |
| Text.Leftmost | src/buildgradle.rs:70-71 | The reported position is a match and no earlier position is one. When nothing is reported, no position matches. |
| Text.DecimalCanonical | src/buildgradle.rs:74 | A digit string without a leading zero is the decimal rendering of the number it parses to. |
| Text.ReplaceFrom | src/properties.rs:76 | Replacing from a given position on. A replacement as long as the pattern keeps the length of the rest of the line, and a longer one never shortens it. |
| Text.ReplaceAll | src/properties.rs:76 | `str::replace` for a whole line, with the same length facts. `ReplaceAllFirst`, `ReplaceFromFirst` and `ReplaceAllAbsent` pin down the result for any number of occurrences. |
| Text.ReplaceAllSelf | src/properties.rs:76 | Replacing a text by itself leaves a line as it is. |
| Text.ReplaceAllAbsent | src/properties.rs:76 | A line in which the pattern does not occur is left as it is. |
| Text.ReplaceAllOnce | src/properties.rs:76 | When the pattern occurs once, only that occurrence is swapped and everything around it is kept. |
| Text.ReplaceFromFirst | src/properties.rs:76 | The scan keeps the text up to the first occurrence from a position on, replaces that occurrence, and resumes right after it. Together with `ReplaceFromAbsent` this fixes the left-to-right, non-overlapping replacement of every occurrence. |
| Text.ReplaceAllFirst | src/properties.rs:76 | In a whole line, the first occurrence is replaced and the rest of the line is scanned after it. |
| Text.ReplaceAllTwice | src/properties.rs:76 | When the pattern occurs exactly twice without overlap, both occurrences are replaced and the text between and around them is kept. |
| Text.Serialize | src/buffer.rs:59-74 | The writer receives nothing exactly when there are no lines. Otherwise its text ends in a line feed and holds at least one character per line. |
| Text.SerializeSnoc | src/buffer.rs:60-72 | Writing one more line appends the line's text and one line feed. |
| Text.SplitSerialize | src/buffer.rs:59-74 | Splitting the written text at line feeds gives back the lines written, when none holds a line feed or ends in a carriage return. |
| Text.SplitLines | src/buffer.rs:22-24 | Cutting a text into lines yields no more lines than characters, and no line holds a line feed. |
| Scanning.FirstAt | src/buildgradle.rs:25-30 | The value found is the one from the first line that yields a value. |
| Scanning.FirstNone | src/buildgradle.rs:33-38 | When no line yields a value, none is found. |
| Scanning.FirstSome | src/buildgradle.rs:25-30 | A value found comes from some line, and every earlier line yields none. |
| Scanning.ScanTwo | src/buildgradle.rs:21-32 | The loop keeps every line in order. Each accumulator ends as the first value its parser yields; a parser is not consulted once its value is found. |
| Scanning.ScanOne | src/properties.rs:20-28 | The same loop with a single accumulator. |
| BuildGradle.FindCode | src/buildgradle.rs:70-71 | Finds the leftmost `versionCode\s+\d+`. The captured digits are the whole run after the white-space run. |
| BuildGradle.ParseVersionCodeLine | src/buildgradle.rs:69-79 | Yields a build number exactly when the line has a match; it is the value of the captured digits. |
| BuildGradle.ReplaceVersionCode | src/buildgradle.rs:95-107 | A line without a match is unchanged. Otherwise the leftmost match becomes `versionCode N` with one space, and the text before and after it is kept. |
| BuildGradle.ReplaceCodeRoundTrip | src/buildgradle.rs:95-107 | Reading back a rewritten `versionCode` line gives the new build number. |
| BuildGradle.FindName | src/buildgradle.rs:82-83 | Finds the leftmost `versionName\s+"[\d.]+"`. The captured text is the whole run between the quotes. |
| BuildGradle.ParseVersionNameLine | src/buildgradle.rs:81-93 | Yields a version only when the line has a match. The leftmost match alone decides; an unparsable value gives nothing. |
| BuildGradle.NameFound | src/buildgradle.rs:81-93 | The version read is the parse of the leftmost match's quoted text. |
| BuildGradle.ReplaceVersionName | src/buildgradle.rs:109-121 | A line whose version does not parse is unchanged. Otherwise the leftmost match becomes `versionName "X.Y.Z"`, and the text before and after it is kept. |
| BuildGradle.ReplaceNameRoundTrip | src/buildgradle.rs:109-121 | Reading back a rewritten `versionName` line gives the new version. |
| BuildGradle.CodeLeftmostKept | src/buildgradle.rs:99-102 | Changing the text from a leftmost `versionCode` match onwards does not make an earlier position match. |
| BuildGradle.NameLeftmostKept | src/buildgradle.rs:113-116 | The same for a `versionName` match. |
| BuildGradle.RenderUntouched | src/buildgradle.rs:60-66 | A line with no `versionCode` match and no `versionName` match holding a valid version (such as `versionCode abc` or `versionName "1.0"`) is emitted character for character. |
| BuildGradle.Discover | src/buildgradle.rs:33-38 | A missing build number is reported first, as `VersionNotFound("failed to find versionCode")`. Then a missing version, as `VersionNotFound("failed to find versionName")`. |
| BuildGradle.BuildGradleContent.constructor | src/buildgradle.rs:39-46 | The new document holds the given lines and values, and is not modified. |
| BuildGradle.BuildGradleContent.From | src/buildgradle.rs:17-47 | Either the two `VersionNotFound` errors, in order, or a fresh, unmodified document. It keeps every input line in order and holds the first build number and the first version found. |
| BuildGradle.BuildGradleContent.SyncVersion | src/buildgradle.rs:54-59 | The version follows `SyncStep`. `modified` becomes true only when the version changed and is never cleared. On an error nothing changes. |
| BuildGradle.BuildGradleContent.Lines | src/buildgradle.rs:60-66 | As many lines as are stored. Each stored line is rewritten for the build number, then for the version. |
| Buffer.GradleBuffer.constructor | src/buffer.rs:40-46 | The new buffer holds the given lines and values. |
| Buffer.GradleBuffer.From | src/buffer.rs:18-47 | The same scan and the same two errors, in the same order, as `BuildGradleContent.From`. |
| Buffer.GradleBuffer.SynchronizeVersion | src/buffer.rs:54-57 | The version follows `SyncStep`; the "changed" answer is dropped, and errors propagate. |
| Buffer.GradleBuffer.Write | src/buffer.rs:59-74 | Appends to the writer each rewritten line, in stored order, with one line feed after each. It changes nothing in the buffer. |
| Properties.FindProject | src/properties.rs:58-59 | Finds the leftmost `projectVersion\s*=\s*[\d.]+`. The captured text is the whole run after `=` and the white space. |
| Properties.ParseProjectVersionFromLine | src/properties.rs:57-70 | Yields a version only when the line has a match. An unparsable value gives nothing, never an error. |
| Properties.ProjectFound | src/properties.rs:57-70 | The version read prints as exactly the captured text. |
| Properties.ReplaceProjectVersionFromLine | src/properties.rs:72-80 | A line without a readable version is unchanged. Otherwise every occurrence of the old version's text in the line is replaced by the new version's text, as `str::replace` does. |
| Properties.ReplaceProjectSame | src/properties.rs:72-80 | Synchronising a line to the version it already holds leaves it unchanged. |
| Properties.ReplaceProjectOnce | src/properties.rs:72-80 | When the old version's text occurs only as the matched value, just that value is swapped. The text around it, including the spacing around `=`, is kept. |
| Properties.ReplaceProjectTwice | src/properties.rs:72-80 | When the old version's text occurs as the matched value and once more after it, as in `projectVersion=1.2.3 # was 1.2.3`, both are swapped and the rest of the line is kept. |
| Properties.ReplaceProjectRoundTrip | src/properties.rs:57-80 | When the old version's text occurs only as the matched value, reading back the rewritten line gives the new version. |
| Properties.PropertiesContent.constructor | src/properties.rs:32-36 | The new document holds the given lines, build number 1 and the given version, and is not modified. |
| Properties.PropertiesContent.From | src/properties.rs:17-37 | Either `VersionNotFound("failed to find projectVersion")`, or a fresh, unmodified document. It keeps every input line, with build number 1 and the first version found. |
| Properties.PropertiesContent.SyncVersion | src/properties.rs:44-49 | The version follows `SyncStep`. `modified` becomes true only when the version changed. On an error nothing changes. |
| Properties.PropertiesContent.Lines | src/properties.rs:50-54 | As many lines as are stored, each with its version text swapped for the current version. |
| Cases.HelloWorld | src/tests/buildgradle.rs:23-29 | "hello world" yields no build number, no version and no project version. |
| Cases.CodeWithoutDigits | src/tests/buildgradle.rs:27-28 | "versionCode abc" yields no build number. |
| Cases.IndentedCode | src/tests/buildgradle.rs:17-19 | "    versionCode 1234" yields 1234. |
| Cases.TwoParts | src/tests/properties.rs:23-33 | "1.0" and "1.2" are not versions. |
| Cases.NameTwoParts | src/tests/buildgradle.rs:47-48 | `versionName "1.0"` yields no version. |
| Cases.CodeLineHasNoName | src/tests/buildgradle.rs:50-51 | "versionCode 2" yields no version. |
| Cases.ProjectWithoutKey | src/tests/properties.rs:23-33 | "project=1.2.3.4" yields no project version. |
| Cases.ProjectTwoParts | src/tests/properties.rs:23-33 | "projectVersion=1.2" yields no project version. |
| Cases.CodeTwo | src/tests/buildgradle.rs:13-15 | "versionCode 2" yields 2. |
| Cases.NameOneZeroZero | src/tests/buildgradle.rs:33-35 | `versionName "1.0.0"` yields 1.0.0. |
| Cases.NameThreeFour | src/tests/buildgradle.rs:37-39 | `versionName "3.4.123"` yields 3.4.123. |
| Cases.ReplaceCodeTwo | src/tests/buildgradle.rs:56-59 | "versionCode 2" rewritten for 3 is "versionCode 3". |
| Cases.ReplaceIndentedCode | src/tests/buildgradle.rs:61-64 | "    versionCode 12" rewritten for 78 is "    versionCode 78". |
| Cases.ReplaceNameOne | src/tests/buildgradle.rs:74-80 | `versionName "1.0.0"` rewritten for 1.2.3 is `versionName "1.2.3"`. |
| Cases.ReplaceNameWide | src/tests/buildgradle.rs:82-88 | `versionName "123.456.789"` rewritten for 1.2.3 is `versionName "1.2.3"`. |
| Cases.ReplaceHelloWorld | src/tests/buildgradle.rs:66-69 | "hello world" is left as it is by both rewrites. |
| Cases.CodeLineRender | src/buildgradle.rs:60-66 | An indented `versionCode N` line reads as N, holds no version, and is emitted as the same line with the new build number. |
| Cases.NameLineRender | src/buildgradle.rs:60-66 | An indented `versionName "S"` line holding a valid version holds no build number, reads as that version, and is emitted with the new version. |
| Cases.ProjectRewrite | src/properties.rs:72-80 | An indented `projectVersion = X.Y.Z` line, with any spacing around `=`, is rewritten to the same text with the new version. |
| Cases.ScriptRead | src/buildgradle.rs:17-47 | In a seven-line script whose only build-number line is the fourth and whose only version line is the fifth, reading finds exactly those two values. |
| Cases.AndroidRead | src/tests/buildgradle.rs:100-116 | The test's `android { defaultConfig { … } }` script reads as build number 2 and version 1.1.2. |
| Cases.ScriptRender | src/buildgradle.rs:60-66 | In such a script every line other than the two version lines is emitted unchanged, and those two are rewritten. |
| Cases.AndroidRender | src/tests/buildgradle.rs:168-192 | The test's script, emitted for build number 3 and version 1.2.0, gives the expected lines. |
| Cases.AndroidSyncedText | src/tests/buildgradle.rs:178-184 | Those lines, written out, are the expected text, with a line feed after the closing brace. |
| Cases.ScriptWithoutCode | src/buildgradle.rs:23-35 | A script without a build-number line reads no build number. |
| Cases.ScriptWithoutName | src/buildgradle.rs:23-38 | A script with a build-number line and no version line reads a build number and no version. |
| Cases.AndroidWithoutCodeRead | src/tests/buildgradle.rs:118-130 | The test's script without `versionCode` reads no build number. |
| Cases.AndroidWithoutNameRead | src/tests/buildgradle.rs:132-144 | The test's script without `versionName` reads a build number and no version. |
| Cases.ReadScript | src/tests/buildgradle.rs:100-116 | Reading the script gives an unmodified document with build number 2 and version 1.1.2. |
| Cases.ReadScriptWithoutCode | src/tests/buildgradle.rs:118-130 | Reading fails with `VersionNotFound("failed to find versionCode")`. |
| Cases.ReadScriptWithoutName | src/tests/buildgradle.rs:132-144 | Reading fails with `VersionNotFound("failed to find versionName")`. |
| Cases.ModifiedOnlyWhenHigher | src/tests/buildgradle.rs:146-166 | Synchronising with the same version leaves the document unmodified. A higher version then marks it modified. |
| Cases.WriteScript | src/tests/buildgradle.rs:168-192 | Read, synchronised with 1.2.0 and written, the script is the expected text. |
| Cases.WriteBuffer | src/tests/buffer.rs:168-192 | The same script, through `GradleBuffer`, writes the same expected text. |
| Cases.ProjectPlain | src/tests/properties.rs:12 | "projectVersion=1.2.3" yields 1.2.3. |
| Cases.ProjectSpaced | src/tests/properties.rs:13 | "projectVersion = 1.2.3" yields 1.2.3. |
| Cases.ProjectIndented | src/tests/properties.rs:14 | "   projectVersion = 1.2.3" yields 1.2.3. |
| Cases.ReplaceProjectPlain | src/tests/properties.rs:38 | "projectVersion=1.2.3" rewritten for 1.3.0 is "projectVersion=1.3.0". |
| Cases.ReplaceProjectSpaced | src/tests/properties.rs:39 | "projectVersion = 1.2.3" rewritten for 1.3.0 is "projectVersion = 1.3.0". |
| Cases.ReplaceProjectIndented | src/tests/properties.rs:40 | "  projectVersion = 1.2.3" rewritten for 1.3.0 is "  projectVersion = 1.3.0". |
| Cases.ThreeRead | src/properties.rs:17-37 | In three lines whose first holds no version and whose second does, the version read is the second line's. |
| Cases.FourAbsent | src/properties.rs:22-31 | Four lines none of which holds a version read no version. |
| Cases.ThreeRender | src/properties.rs:50-54 | Of three lines, the first and last holding no version are emitted unchanged and the middle one is rewritten. |
| Cases.PropsRead | src/tests/properties.rs:52-66 | The test's properties text reads as version 1.2.0. |
| Cases.PropsRender | src/tests/properties.rs:80-96 | Emitted for 1.3.4, its lines are the expected ones. |
| Cases.PropsSyncedText | src/tests/properties.rs:85-87 | Those lines, written out, are the expected text. |
| Cases.ReadProperties | src/tests/properties.rs:52-66 | Reading the text gives version 1.2.0, which prints as "1.2.0". |
| Cases.ReadPropertiesWithoutVersion | src/tests/properties.rs:68-77 | Reading a text without `projectVersion` fails with `VersionNotFound("failed to find projectVersion")`. |
| Cases.WriteProperties | src/tests/properties.rs:80-96 | Read, synchronised with 1.3.4 and written, the text is the expected one. |
| Cases.NewPair | src/tests/version.rs:5-13 | A new pair holds build number 1 and a version printing as "0.1.0". |
| Cases.BumpOnHigher | src/tests/version.rs:15-27 | Synchronising 0.1.0 with 0.1.1 succeeds, raises the build number and takes the new version. |
| Cases.KeepOnSame | src/tests/version.rs:29-40 | Synchronising 0.1.0 with itself succeeds and changes nothing. |
| Cases.RefuseLowerMessage | src/version.rs:20-24 | The refusal text for 0.2.0 and 0.1.2 is "version not increasing (old)0.2.0 > (new)0.1.2". |
| Cases.RefuseLower | src/tests/version.rs:42-54 | Synchronising 0.2.0 with 0.1.2 fails with that `VersionNotIncreasing` error. |

## Left out

- Files, readers and writers: `BufRead::lines`, UTF-8 decoding, `File::open` and `OpenOptions` are outside the model. `src/configfile.rs` and `src/file.rs` are not part of this model. A document is a sequence of lines (`Text.SplitLines` shows one way to cut a text into them), and a writer is the string it has received.
- I/O errors: the `?` on a failed line read, the `From<io::Error>` conversion and the mapping of a failed `write` to `IoError("failed to write")` are not modelled. A partial `write` call is not modelled either; every write is taken to be complete.
- `BuildGradleContent` and `PropertiesContent` have no `write` of their own. Their `lines()` output, passed through `Text.Serialize`, is what a writer would receive.
- The accessors `code()`, `version()`, `is_modified()` and `current_version()` read fields, and the model exposes those fields directly.
- `\s` and `\d` are Unicode classes in Rust's regex engine. Here they are ASCII: space, tab, line feed, carriage return, vertical tab and form feed for `\s`, and `0`-`9` for `\d`.
- Semantic versions: only `major.minor.patch` is modelled, ordered lexicographically. Pre-release and build metadata and surrounding white space are not. A numeral with a leading zero is refused, as semantic versioning requires; the crate's own behaviour is not part of this model.
- Semver.Parse: the `semver` crate stores each component as a `u64` and refuses a larger numeral. The model's components are unbounded naturals, so `versionName "18446744073709551616.0.0"` yields a version in the model and none in the source.
- Panics are preconditions. `parse::<u32>().unwrap()` on a digit run above `u32::MAX` becomes `BuildGradle.CodesParse` for reading and `BuildGradle.AllCodesFit` for emitting.
- VersionState.GradleVersion.Synchronize: `version_code += 1` at `u32::MAX` (`src/version.rs:28`) panics only in a build with overflow checks (a debug build). A release build wraps the build number to 0. The model covers neither outcome: the precondition of `Synchronize`, `SyncVersion` and `SynchronizeVersion` excludes a bump at `u32::MAX`.
- Properties.ReplaceProjectRoundTrip: proved only for lines in which the old version's text occurs once, as the matched value. When it also occurs elsewhere in the line, every occurrence is replaced, and re-reading is not proved for that case.
- Reading back a whole written document is not proved: that the first build number and version of `Render(lines, c, v)` are `c` and `v`. Only the per-line round trips are.
- The duplicate line functions of `src/buffer.rs:77-129` are not modelled separately, because they are textually identical to `src/buildgradle.rs:69-121`.

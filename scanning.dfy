/**
 * The reading loop shared by every document type: keep every line in
 * order, and fill each accumulator from the first line whose parser yields
 * a value, never calling that parser again afterwards. The loop is written
 * once over the line parsers it is given.
 */
module Scanning {
  import opened Text

  /**
   * The parser may be applied to every line the scan hands it: each line
   * up to and including the first one that yields a value.
   */
  ghost predicate Parsable<T>(lines: seq<string>, parse: string --> Option<T>)
    decreases |lines|
  {
    lines == [] || (parse.requires(lines[0]) && (parse(lines[0]).None? ==> Parsable(lines[1..], parse)))
  }

  /** The value of the first line that yields one. */
  ghost function First<T>(lines: seq<string>, parse: string --> Option<T>): Option<T>
    requires Parsable(lines, parse)
    decreases |lines|
  {
    if lines == [] then None
    else match parse(lines[0])
      case Some(v) => Some(v)
      case None => First(lines[1..], parse)
  }

  /** A parser without a precondition may be applied to any series of lines. */
  lemma {:induction false} TotalParsable<T>(lines: seq<string>, parse: string --> Option<T>)
    requires forall k :: 0 <= k < |lines| ==> parse.requires(lines[k])
    ensures Parsable(lines, parse)
    decreases |lines|
  {
    if lines != [] {
      assert forall k :: 0 <= k < |lines| - 1 ==> lines[1..][k] == lines[k + 1];
      TotalParsable(lines[1..], parse);
    }
  }

  /** The first line that yields a value supplies it. */
  lemma {:induction false} FirstAt<T>(lines: seq<string>, parse: string --> Option<T>, i: nat)
    requires i < |lines|
    requires forall j :: 0 <= j < i ==> parse.requires(lines[j]) && parse(lines[j]).None?
    requires parse.requires(lines[i]) && parse(lines[i]).Some?
    ensures Parsable(lines, parse) && First(lines, parse) == parse(lines[i])
    decreases i
  {
    if 0 < i {
      assert forall j :: 0 <= j < i - 1 ==> lines[1..][j] == lines[j + 1];
      FirstAt(lines[1..], parse, i - 1);
    }
  }

  /** When no line yields a value there is none. */
  lemma {:induction false} FirstNone<T>(lines: seq<string>, parse: string --> Option<T>)
    requires forall j :: 0 <= j < |lines| ==> parse.requires(lines[j]) && parse(lines[j]).None?
    ensures Parsable(lines, parse) && First(lines, parse).None?
    decreases |lines|
  {
    if lines != [] {
      assert forall j :: 0 <= j < |lines| - 1 ==> lines[1..][j] == lines[j + 1];
      FirstNone(lines[1..], parse);
    }
  }

  /** A value found comes from some line, and every earlier line yields none. */
  lemma {:induction false} FirstSome<T>(lines: seq<string>, parse: string --> Option<T>)
    requires Parsable(lines, parse) && First(lines, parse).Some?
    ensures exists i :: (0 <= i < |lines| && parse.requires(lines[i]) && parse(lines[i]) == First(lines, parse)
      && (forall j :: 0 <= j < i ==> parse.requires(lines[j]) && parse(lines[j]).None?))
    decreases |lines|
  {
    if parse(lines[0]).None? {
      FirstSome(lines[1..], parse);
      var i :| 0 <= i < |lines[1..]| && parse.requires(lines[1..][i]) && parse(lines[1..][i]) == First(lines[1..], parse)
        && (forall j :: 0 <= j < i ==> parse.requires(lines[1..][j]) && parse(lines[1..][j]).None?);
      assert forall j :: 1 <= j < i + 1 ==> lines[j] == lines[1..][j - 1];
      assert lines[i + 1] == lines[1..][i];
    } else {
      assert parse(lines[0]) == First(lines, parse);
    }
  }

  /** The step of the scan at line `i`, for an accumulator that is still empty. */
  lemma FirstStep<T>(lines: seq<string>, parse: string --> Option<T>, i: nat)
    requires i < |lines| && Parsable(lines[i..], parse)
    ensures parse.requires(lines[i])
    ensures parse(lines[i]).Some? ==> First(lines[i..], parse) == parse(lines[i])
    ensures parse(lines[i]).None? ==> Parsable(lines[i + 1..], parse) && First(lines[i..], parse) == First(lines[i + 1..], parse)
  {
    assert lines[i..][0] == lines[i] && lines[i..][1..] == lines[i + 1..];
  }

  /** The loop of a reader that looks for one value. */
  method ScanOne<T>(input: seq<string>, parse: string --> Option<T>) returns (lines: seq<string>, found: Option<T>)
    requires Parsable(input, parse)
    ensures lines == input
    ensures found == First(input, parse)
  {
    lines, found := [], None;
    var i := 0;
    while i < |input|
      invariant 0 <= i <= |input|
      invariant lines == input[..i]
      invariant found.None? ==> Parsable(input[i..], parse) && First(input, parse) == First(input[i..], parse)
      invariant found.Some? ==> found == First(input, parse)
    {
      var line := input[i];
      if found.None? {
        FirstStep(input, parse, i);
        found := parse(line);
      }
      assert input[..i + 1] == input[..i] + [line];
      lines := lines + [line];
      i := i + 1;
    }
    assert input[..i] == input;
  }

  /** The loop of a reader that looks for two values on the same pass. */
  method ScanTwo<A, B>(input: seq<string>, parseA: string --> Option<A>, parseB: string --> Option<B>)
    returns (lines: seq<string>, a: Option<A>, b: Option<B>)
    requires Parsable(input, parseA) && Parsable(input, parseB)
    ensures lines == input
    ensures a == First(input, parseA) && b == First(input, parseB)
  {
    lines, a, b := [], None, None;
    var i := 0;
    while i < |input|
      invariant 0 <= i <= |input|
      invariant lines == input[..i]
      invariant a.None? ==> Parsable(input[i..], parseA) && First(input, parseA) == First(input[i..], parseA)
      invariant a.Some? ==> a == First(input, parseA)
      invariant b.None? ==> Parsable(input[i..], parseB) && First(input, parseB) == First(input[i..], parseB)
      invariant b.Some? ==> b == First(input, parseB)
    {
      var line := input[i];
      if a.None? {
        FirstStep(input, parseA, i);
        a := parseA(line);
      }
      if b.None? {
        FirstStep(input, parseB, i);
        b := parseB(line);
      }
      assert input[..i + 1] == input[..i] + [line];
      lines := lines + [line];
      i := i + 1;
    }
    assert input[..i] == input;
  }
}

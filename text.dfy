/**
 * Character classes, maximal runs, leftmost search, decimal numerals and
 * the line-level text helpers shared by every configuration dialect.
 *
 * The regular expressions of the source are re-implemented here by hand:
 * `\s` is ASCII white space, `\d` is an ASCII digit, and a regex search is
 * the leftmost position at which a "match here" predicate holds.
 */
module Text {

  datatype Option<T> = None | Some(value: T)

  /** ASCII white space as matched by `\s`: space, tab, line feed, vertical tab, form feed, carriage return. */
  predicate IsSpace(c: char) {
    c == ' ' || c == '\t' || c == '\n' || c == '\r' || c as int == 0x0B || c as int == 0x0C
  }

  /** ASCII digit as matched by `\d`. */
  predicate IsDigit(c: char) {
    '0' <= c <= '9'
  }

  /** A character of the class `[\d.]`. */
  predicate IsVersionChar(c: char) {
    IsDigit(c) || c == '.'
  }

  /**
   * The end of the maximal run of characters satisfying `p` that starts at
   * position `k` of `s` (a greedy `p*` from `k`).
   */
  function RunEnd(s: string, k: nat, p: char -> bool): (e: nat)
    requires k <= |s|
    decreases |s| - k
    ensures k <= e <= |s|
    ensures forall m :: k <= m < e ==> p(s[m])
    ensures e < |s| ==> !p(s[e])
  {
    if k < |s| && p(s[k]) then RunEnd(s, k + 1, p) else k
  }

  /** The three properties of `RunEnd` determine it. */
  lemma RunEndUnique(s: string, k: nat, p: char -> bool, e: nat)
    requires k <= e <= |s|
    requires forall m :: k <= m < e ==> p(s[m])
    requires e < |s| ==> !p(s[e])
    ensures RunEnd(s, k, p) == e
  {
  }

  /** `a` with its part `v..e` replaced by `s`: what is kept, and where `s` lands. */
  lemma Splice(a: string, v: nat, e: nat, s: string)
    requires v <= e <= |a|
    ensures var out := a[..v] + s + a[e..];
      && |out| == v + |s| + (|a| - e)
      && (forall k :: 0 <= k < v ==> out[k] == a[k])
      && (forall k :: 0 <= k < |s| ==> out[v + k] == s[k])
      && (forall k :: e <= k < |a| ==> out[v + |s| + (k - e)] == a[k])
      && out[v..v + |s|] == s
  {
  }

  /** Where each of four consecutive parts lands in their concatenation. */
  lemma Pieces(pre: string, key: string, v: string, rest: string)
    ensures var out := pre + key + v + rest;
      && |out| == |pre| + |key| + |v| + |rest|
      && (forall k :: 0 <= k < |pre| ==> out[k] == pre[k])
      && (forall k :: 0 <= k < |key| ==> out[|pre| + k] == key[k])
      && (forall k :: 0 <= k < |v| ==> out[|pre| + |key| + k] == v[k])
      && (forall k :: 0 <= k < |rest| ==> out[|pre| + |key| + |v| + k] == rest[k])
      && out[|pre| + |key|..|pre| + |key| + |v|] == v
  {
  }

  /** A run over `s` spliced in before a character that ends the run ends where `s` ends. */
  lemma SpliceRun(a: string, v: nat, e: nat, s: string, p: char -> bool)
    requires v <= e <= |a|
    requires forall k :: 0 <= k < |s| ==> p(s[k])
    requires e < |a| ==> !p(a[e])
    ensures RunEnd(a[..v] + s + a[e..], v, p) == v + |s|
  {
    var out := a[..v] + s + a[e..];
    Splice(a, v, e, s);
    assert forall m :: v <= m < v + |s| ==> out[m] == s[m - v];
    assert v + |s| < |out| ==> out[v + |s|] == a[e];
    RunEndUnique(out, v, p, v + |s|);
  }

  /**
   * A run that starts at or before position `e`, where both strings hold a
   * stopper, ends there at the latest; so two strings that agree before `e`
   * have the same run.
   */
  lemma RunEndAgree(a: string, b: string, k: nat, p: char -> bool, e: nat)
    requires k <= e < |a| && e < |b|
    requires forall m :: 0 <= m < e ==> a[m] == b[m]
    requires !p(a[e]) && !p(b[e])
    ensures RunEnd(a, k, p) <= e
    ensures RunEnd(a, k, p) == RunEnd(b, k, p)
  {
    var r := RunEnd(a, k, p);
    assert r <= e;
    assert r < e ==> a[r] == b[r];
    RunEndUnique(b, k, p, r);
  }

  /** A regex match in a line: where it starts and ends, and where the captured value lies. */
  datatype Span = Span(start: nat, valueStart: nat, valueEnd: nat, end: nat)

  /**
   * Leftmost search: the least position `i >= from` at which `here(s, i)`
   * holds, the way a regex engine reports the leftmost match.
   */
  function Leftmost(s: string, here: (string, nat) -> bool, from: nat): (r: Option<nat>)
    requires from <= |s|
    decreases |s| - from
    ensures r.Some? ==> from <= r.value <= |s| && here(s, r.value)
    ensures r.Some? ==> forall j :: from <= j < r.value ==> !here(s, j)
    ensures r.None? ==> forall j :: from <= j <= |s| ==> !here(s, j)
  {
    if here(s, from) then Some(from)
    else if from == |s| then None
    else Leftmost(s, here, from + 1)
  }

  /** A match with none before it is the leftmost one. */
  lemma LeftmostFirst(s: string, here: (string, nat) -> bool, i: nat)
    requires i <= |s| && here(s, i)
    requires forall j :: 0 <= j < i ==> !here(s, j)
    ensures Leftmost(s, here, 0) == Some(i)
  {
  }

  /** Two strings on which `here` agrees up to the first match have the same leftmost match. */
  lemma LeftmostAgree(a: string, b: string, here: (string, nat) -> bool, i: nat)
    requires Leftmost(a, here, 0) == Some(i)
    requires i <= |b|
    requires forall j :: 0 <= j <= i ==> here(a, j) == here(b, j)
    ensures Leftmost(b, here, 0) == Some(i)
  {
    assert here(b, i);
    assert forall j :: 0 <= j < i ==> !here(b, j) by {
      forall j | 0 <= j < i ensures !here(b, j) {
        assert !here(a, j);
      }
    }
  }

  // ---------------------------------------------------------------------
  // Decimal numerals

  predicate AllDigits(s: string) {
    forall k :: 0 <= k < |s| ==> IsDigit(s[k])
  }

  /** A numeral with no leading zero: "0", or digits starting with 1-9. */
  predicate Canonical(s: string) {
    0 < |s| && AllDigits(s) && (s[0] == '0' ==> |s| == 1)
  }

  function DigitValue(c: char): nat
    requires IsDigit(c)
  {
    c as int - '0' as int
  }

  function DigitChar(d: nat): (c: char)
    requires d < 10
    ensures IsDigit(c) && DigitValue(c) == d
  {
    ('0' as int + d) as char
  }

  /** The value of a decimal digit string, as `str::parse` computes it (leading zeros allowed). */
  function DecimalValue(s: string): nat
    requires AllDigits(s)
  {
    if s == [] then 0 else 10 * DecimalValue(s[..|s| - 1]) + DigitValue(s[|s| - 1])
  }

  /** The decimal rendering of `n` (Rust's `Display` for integers). */
  function DecimalString(n: nat): (s: string)
    ensures Canonical(s)
    ensures DecimalValue(s) == n
  {
    if n < 10 then [DigitChar(n)]
    else
      var prefix := DecimalString(n / 10);
      var s := prefix + [DigitChar(n % 10)];
      assert s[..|s| - 1] == prefix;
      s
  }

  lemma {:induction false} PositiveValue(s: string)
    requires 0 < |s| && AllDigits(s) && s[0] != '0'
    ensures DecimalValue(s) > 0
  {
    if |s| > 1 {
      PositiveValue(s[..|s| - 1]);
    }
  }

  /** A canonical numeral is the rendering of its own value. */
  lemma {:induction false} DecimalCanonical(s: string)
    requires Canonical(s)
    ensures DecimalString(DecimalValue(s)) == s
  {
    if |s| > 1 {
      var prefix := s[..|s| - 1];
      assert Canonical(prefix);
      PositiveValue(prefix);
      DecimalCanonical(prefix);
      var v := DecimalValue(s);
      assert v / 10 == DecimalValue(prefix);
      assert v % 10 == DigitValue(s[|s| - 1]);
      assert s == prefix + [s[|s| - 1]];
    }
  }

  // ---------------------------------------------------------------------
  // Searching and replacing substrings

  /** The first index of `c` in `s`. */
  function IndexOf(s: string, c: char): (r: Option<nat>)
    ensures r.Some? ==> r.value < |s| && s[r.value] == c && forall k :: 0 <= k < r.value ==> s[k] != c
    ensures r.None? ==> forall k :: 0 <= k < |s| ==> s[k] != c
  {
    if s == [] then None
    else if s[0] == c then Some(0)
    else match IndexOf(s[1..], c)
      case None => None
      case Some(i) => Some(i + 1)
  }

  /** The first occurrence is the one every earlier position lacks. */
  lemma IndexOfFirst(s: string, c: char, i: nat)
    requires i < |s| && s[i] == c
    requires forall k :: 0 <= k < i ==> s[k] != c
    ensures IndexOf(s, c) == Some(i)
  {
  }

  /** `pat` is spelled out in `s` from position `k`. */
  predicate OccursAt(s: string, pat: string, k: nat) {
    k + |pat| <= |s| && forall m :: 0 <= m < |pat| ==> s[k + m] == pat[m]
  }

  /** A pattern cannot occur over a position holding a character it does not contain. */
  lemma OccursBlocked(s: string, pat: string, j: nat, v: nat)
    requires j <= v < j + |pat| && v < |s|
    requires pat[v - j] != s[v]
    ensures !OccursAt(s, pat, j)
  {
    if j + |pat| <= |s| {
      assert s[j + (v - j)] != pat[v - j];
    }
  }

  /** The pattern can be cut out of `s` where it occurs. */
  lemma OccursSplit(s: string, pat: string, k: nat)
    requires OccursAt(s, pat, k)
    ensures s[k..] == pat + s[k + |pat|..]
  {
    assert s[k..k + |pat|] == pat;
    assert s[k..] == s[k..k + |pat|] + s[k + |pat|..];
  }

  /**
   * The text from position `k` on with every non-overlapping occurrence of
   * `pat`, scanned left to right, replaced by `rep`.
   */
  function ReplaceFrom(s: string, pat: string, rep: string, k: nat): (r: string)
    requires pat != [] && k <= |s|
    decreases |s| - k
    ensures |rep| == |pat| ==> |r| == |s| - k
    ensures |rep| >= |pat| ==> |r| >= |s| - k
  {
    if |s| < k + |pat| then s[k..]
    else if OccursAt(s, pat, k) then rep + ReplaceFrom(s, pat, rep, k + |pat|)
    else [s[k]] + ReplaceFrom(s, pat, rep, k + 1)
  }

  /** Rust's `str::replace` with a non-empty pattern. */
  function ReplaceAll(s: string, pat: string, rep: string): (r: string)
    requires pat != []
    ensures |rep| == |pat| ==> |r| == |s|
    ensures |rep| >= |pat| ==> |r| >= |s|
  {
    ReplaceFrom(s, pat, rep, 0)
  }

  lemma {:induction false} ReplaceFromSelf(s: string, pat: string, k: nat)
    requires pat != [] && k <= |s|
    ensures ReplaceFrom(s, pat, pat, k) == s[k..]
    decreases |s| - k
  {
    if |s| >= k + |pat| {
      if OccursAt(s, pat, k) {
        ReplaceFromSelf(s, pat, k + |pat|);
        OccursSplit(s, pat, k);
      } else {
        ReplaceFromSelf(s, pat, k + 1);
        assert s[k..] == [s[k]] + s[k + 1..];
      }
    }
  }

  /** Replacing a pattern by itself changes nothing. */
  lemma ReplaceAllSelf(s: string, pat: string)
    requires pat != []
    ensures ReplaceAll(s, pat, pat) == s
  {
    ReplaceFromSelf(s, pat, 0);
  }

  lemma {:induction false} ReplaceFromAbsent(s: string, pat: string, rep: string, k: nat)
    requires pat != [] && k <= |s|
    requires forall j :: k <= j <= |s| ==> !OccursAt(s, pat, j)
    ensures ReplaceFrom(s, pat, rep, k) == s[k..]
    decreases |s| - k
  {
    if |s| >= k + |pat| {
      assert !OccursAt(s, pat, k);
      ReplaceFromAbsent(s, pat, rep, k + 1);
      assert s[k..] == [s[k]] + s[k + 1..];
    }
  }

  /** A string in which the pattern does not occur is returned unchanged. */
  lemma ReplaceAllAbsent(s: string, pat: string, rep: string)
    requires pat != []
    requires forall j :: 0 <= j <= |s| ==> !OccursAt(s, pat, j)
    ensures ReplaceAll(s, pat, rep) == s
  {
    ReplaceFromAbsent(s, pat, rep, 0);
  }

  /**
   * One step of the scan: the text up to the first occurrence at or after `k`
   * is kept, that occurrence is replaced, and the scan resumes after it.
   */
  lemma {:induction false} ReplaceFromFirst(s: string, pat: string, rep: string, k: nat, at: nat)
    requires pat != [] && k <= at
    requires OccursAt(s, pat, at)
    requires forall j :: k <= j < at ==> !OccursAt(s, pat, j)
    ensures ReplaceFrom(s, pat, rep, k) == s[k..at] + rep + ReplaceFrom(s, pat, rep, at + |pat|)
    decreases at - k
  {
    if k == at {
      assert s[k..at] == [];
    } else {
      assert !OccursAt(s, pat, k);
      var tail := ReplaceFrom(s, pat, rep, k + 1);
      assert ReplaceFrom(s, pat, rep, k) == [s[k]] + tail;
      ReplaceFromFirst(s, pat, rep, k + 1, at);
      assert s[k..at] == [s[k]] + s[k + 1..at];
    }
  }

  lemma ReplaceFromOnce(s: string, pat: string, rep: string, k: nat, at: nat)
    requires pat != [] && k <= at
    requires OccursAt(s, pat, at)
    requires forall j :: k <= j <= |s| && j != at ==> !OccursAt(s, pat, j)
    ensures ReplaceFrom(s, pat, rep, k) == s[k..at] + rep + s[at + |pat|..]
  {
    ReplaceFromFirst(s, pat, rep, k, at);
    ReplaceFromAbsent(s, pat, rep, at + |pat|);
  }

  /** The first occurrence of the pattern in a string is replaced, and the scan resumes after it. */
  lemma ReplaceAllFirst(s: string, pat: string, rep: string, at: nat)
    requires pat != []
    requires OccursAt(s, pat, at)
    requires forall j :: 0 <= j < at ==> !OccursAt(s, pat, j)
    ensures ReplaceAll(s, pat, rep) == s[..at] + rep + ReplaceFrom(s, pat, rep, at + |pat|)
  {
    ReplaceFromFirst(s, pat, rep, 0, at);
    assert s[0..at] == s[..at];
  }

  /** When the pattern occurs exactly twice, without overlap, both occurrences are replaced. */
  lemma ReplaceAllTwice(s: string, pat: string, rep: string, a: nat, b: nat)
    requires pat != [] && a + |pat| <= b
    requires OccursAt(s, pat, a) && OccursAt(s, pat, b)
    requires forall j :: 0 <= j <= |s| && j != a && j != b ==> !OccursAt(s, pat, j)
    ensures ReplaceAll(s, pat, rep) == s[..a] + rep + s[a + |pat|..b] + rep + s[b + |pat|..]
  {
    ReplaceAllFirst(s, pat, rep, a);
    ReplaceFromOnce(s, pat, rep, a + |pat|, b);
  }

  /** When the pattern occurs exactly once, at `at`, only that occurrence is replaced. */
  lemma ReplaceAllOnce(s: string, pat: string, rep: string, at: nat)
    requires pat != []
    requires OccursAt(s, pat, at)
    requires forall j :: 0 <= j <= |s| && j != at ==> !OccursAt(s, pat, j)
    ensures ReplaceAll(s, pat, rep) == s[..at] + rep + s[at + |pat|..]
  {
    ReplaceFromOnce(s, pat, rep, 0, at);
    assert s[0..at] == s[..at];
  }

  /** The same, for a first occurrence given as the slice `a..e` it occupies. */
  lemma ReplaceAllTwiceSlice(s: string, pat: string, rep: string, a: nat, e: nat, b: nat)
    requires a <= e <= b <= |s| && s[a..e] == pat && pat != []
    requires OccursAt(s, pat, b)
    requires forall j :: 0 <= j <= |s| && OccursAt(s, pat, j) ==> j == a || j == b
    ensures ReplaceAll(s, pat, rep) == s[..a] + rep + s[e..b] + rep + s[b + |pat|..]
  {
    assert forall k :: 0 <= k < |pat| ==> s[a + k] == s[a..e][k];
    ReplaceAllTwice(s, pat, rep, a, b);
  }

  /** The same, for a pattern given as the slice `at..end` it occupies. */
  lemma ReplaceAllSlice(s: string, pat: string, rep: string, at: nat, end: nat)
    requires at <= end <= |s| && s[at..end] == pat && pat != []
    requires forall j :: 0 <= j <= |s| && OccursAt(s, pat, j) ==> j == at
    ensures ReplaceAll(s, pat, rep) == s[..at] + rep + s[end..]
  {
    assert forall k :: 0 <= k < |pat| ==> s[at + k] == s[at..end][k];
    ReplaceAllOnce(s, pat, rep, at);
  }

  // ---------------------------------------------------------------------
  // Lines

  /** Each line followed by exactly one line feed, in order. */
  function Serialize(lines: seq<string>): (text: string)
    ensures text == [] <==> lines == []
    ensures lines != [] ==> text[|text| - 1] == '\n'
    ensures |lines| <= |text|
  {
    if lines == [] then "" else lines[0] + "\n" + Serialize(lines[1..])
  }

  /** A prefix one element longer is the shorter prefix and that element. */
  lemma TakeOneMore<T>(s: seq<T>, i: nat)
    requires i < |s|
    ensures s[..i + 1] == s[..i] + [s[i]]
  {
  }

  /** Appending a line appends its text and one line feed. */
  lemma {:induction false} SerializeSnoc(lines: seq<string>, line: string)
    ensures Serialize(lines + [line]) == Serialize(lines) + line + "\n"
    decreases |lines|
  {
    if lines == [] {
      assert [line][1..] == [];
    } else {
      var longer := lines + [line];
      assert longer[0] == lines[0] && longer[1..] == lines[1..] + [line];
      SerializeSnoc(lines[1..], line);
      var head, rest := lines[0] + "\n", Serialize(lines[1..]);
      calc {
        Serialize(longer);
        head + (rest + line + "\n");
        { Associative(head, rest + line, "\n"); }
        head + (rest + line) + "\n";
        { Associative(head, rest, line); }
        head + rest + line + "\n";
      }
    }
  }

  /** Concatenation is associative. */
  lemma Associative(a: string, b: string, c: string)
    ensures a + (b + c) == a + b + c
  {
  }

  /** Writing one more line after what has been written. */
  lemma WriteLine(sink: string, lines: seq<string>, line: string)
    ensures sink + Serialize(lines) + line + "\n" == sink + Serialize(lines + [line])
  {
    SerializeSnoc(lines, line);
  }

  /**
   * Splitting text into lines as `BufRead::lines` does: at every line feed,
   * dropping a carriage return just before it; a final segment without a
   * line feed is a line only when it is not empty.
   */
  function SplitLines(text: string): (lines: seq<string>)
    decreases |text|
    ensures |lines| <= |text|
    ensures forall i, k :: 0 <= i < |lines| && 0 <= k < |lines[i]| ==> lines[i][k] != '\n'
  {
    if text == [] then []
    else match IndexOf(text, '\n')
      case None => [text]
      case Some(i) =>
        var segment := text[..i];
        var line := if segment != [] && segment[|segment| - 1] == '\r' then segment[..|segment| - 1] else segment;
        [line] + SplitLines(text[i + 1..])
  }

  /** A line that `SplitLines` can give back: no line feed, no trailing carriage return. */
  predicate PlainLine(line: string) {
    (forall k :: 0 <= k < |line| ==> line[k] != '\n') && (line == [] || line[|line| - 1] != '\r')
  }

  /** Reading back what was serialised yields the same lines. */
  lemma {:induction false} SplitSerialize(lines: seq<string>)
    requires forall i :: 0 <= i < |lines| ==> PlainLine(lines[i])
    ensures SplitLines(Serialize(lines)) == lines
    decreases |lines|
  {
    if lines != [] {
      var text := Serialize(lines);
      var first := lines[0];
      assert text == first + "\n" + Serialize(lines[1..]);
      assert text[|first|] == '\n';
      forall k | 0 <= k < |first| ensures text[k] != '\n' {
        assert text[k] == first[k];
      }
      IndexOfFirst(text, '\n', |first|);
      assert text[..|first|] == first;
      assert text[|first| + 1..] == Serialize(lines[1..]);
      SplitSerialize(lines[1..]);
    }
  }
}

/**
 * The (build number, semantic version) pair of a project and its
 * no-regression synchronisation rule: a strictly greater target bumps the
 * build number by exactly one, an equal target changes nothing, a smaller
 * target is refused.
 */
module VersionState {
  import opened Text
  import opened Semver
  import opened Errors

  const U32_MAX: nat := 0xFFFF_FFFF

  /** Rust's `u32`. */
  type U32 = n: nat | n <= U32_MAX

  /** The diagnostic of a refused downgrade. */
  function NotIncreasingMessage(current: Version, target: Version): string {
    "version not increasing (old)" + ToString(current) + " > (new)" + ToString(target)
  }

  /** What one synchronisation call leaves behind: whether it changed, and the new pair. */
  datatype Outcome = Outcome(changed: bool, code: nat, name: Version)

  /** The synchronisation rule on values. */
  function SyncStep(code: nat, name: Version, target: Version): (r: Result<Outcome>)
    ensures r.Err? <==> Less(target, name)
    ensures r.Err? ==> r.error == VersionNotIncreasing(NotIncreasingMessage(name, target))
    ensures r.Ok? ==> (r.value.changed <==> Less(name, target))
    ensures r.Ok? && r.value.changed ==> r.value.code == code + 1 && r.value.name == target
    ensures r.Ok? && !r.value.changed ==> r.value.code == code && r.value.name == name == target
  {
    if Less(target, name) then
      Err(VersionNotIncreasing(NotIncreasingMessage(name, target)))
    else if Less(name, target) then
      Ok(Outcome(true, code + 1, target))
    else
      Trichotomy(name, target);
      Ok(Outcome(false, code, name))
  }

  /** What one call leaves behind: a refused call leaves the pair as it was and reports no change. */
  function Settle(code: nat, name: Version, target: Version): (o: Outcome)
    ensures o.changed ==> o.code == code + 1 && Less(name, o.name)
    ensures !o.changed ==> o.code == code && o.name == name
  {
    match SyncStep(code, name, target)
    case Err(_) => Outcome(false, code, name)
    case Ok(o) => o
  }

  /**
   * The pair after a series of synchronisation calls, and whether any of
   * them changed it.
   */
  function SyncAll(code: nat, name: Version, targets: seq<Version>): (o: Outcome)
    decreases |targets|
    ensures |targets| == 1 ==> o == Settle(code, name, targets[0])
  {
    if targets == [] then Outcome(false, code, name)
    else
      var next := Settle(code, name, targets[0]);
      var rest := SyncAll(next.code, next.name, targets[1..]);
      Outcome(next.changed || rest.changed, rest.code, rest.name)
  }

  /**
   * Over any series of calls the build number and the version never go
   * down, they move in lock step (one changes exactly when the other does),
   * and the build number grows by at most one per call.
   */
  lemma {:induction false} SyncAllMonotone(code: nat, name: Version, targets: seq<Version>)
    ensures var o := SyncAll(code, name, targets);
      && code <= o.code <= code + |targets|
      && (o.name == name || Less(name, o.name))
      && (o.code == code <==> o.name == name)
      && (o.changed <==> o.name != name)
    decreases |targets|
  {
    if targets != [] {
      var next := Settle(code, name, targets[0]);
      SyncAllMonotone(next.code, next.name, targets[1..]);
      var o := SyncAll(next.code, next.name, targets[1..]);
      if o.name != next.name {
        if next.name != name {
          LessTransitive(name, next.name, o.name);
        }
      }
      Trichotomy(name, o.name);
    }
  }

  /**
   * A series of calls is its first part followed by the rest: the rest
   * starts from the pair the first part leaves behind.
   */
  lemma {:induction false} SyncAllAppend(code: nat, name: Version, first: seq<Version>, rest: seq<Version>)
    ensures var mid := SyncAll(code, name, first);
      var o := SyncAll(mid.code, mid.name, rest);
      SyncAll(code, name, first + rest) == Outcome(mid.changed || o.changed, o.code, o.name)
    decreases |first|
  {
    if first == [] {
      assert first + rest == rest;
    } else {
      var next := Settle(code, name, first[0]);
      assert (first + rest)[0] == first[0];
      assert (first + rest)[1..] == first[1..] + rest;
      SyncAllAppend(next.code, next.name, first[1..], rest);
    }
  }

  /** `sem_version_parse`: parse a caller-supplied version string, wrapping failure. */
  function SemVersionParse(s: string): (r: Result<Version>)
    ensures r.Ok? <==> Parse(s).Some?
    ensures r.Ok? ==> ToString(r.value) == s
    ensures r.Err? ==> r.error == ParsingFailed("failed to parse version string '" + s + "'")
  {
    match Parse(s)
    case None => Err(ParsingFailed("failed to parse version string '" + s + "'"))
    case Some(v) => Ok(v)
  }

  /** `GradleVersion`: the build number (`version_code`) and the semantic version (`version_name`). */
  class GradleVersion {
    var code: U32
    var name: Version

    constructor (code: U32, name: Version)
      ensures this.code == code && this.name == name
    {
      this.code := code;
      this.name := name;
    }

    /**
     * `synchronize_version`. Overflow of the build number past `u32::MAX`
     * panics in the source; here it is excluded by the precondition.
     */
    method Synchronize(target: Version) returns (r: Result<bool>)
      requires Less(name, target) ==> code < U32_MAX
      modifies this
      ensures match SyncStep(old(code), old(name), target)
        case Err(e) => r == Err(e) && code == old(code) && name == old(name)
        case Ok(o) => r == Ok(o.changed) && code == o.code && name == o.name
    {
      if Less(target, name) {
        r := Err(VersionNotIncreasing(NotIncreasingMessage(name, target)));
        return;
      }
      if Less(name, target) {
        code := code + 1;
        name := target;
        r := Ok(true);
      } else {
        r := Ok(false);
      }
    }
  }
}

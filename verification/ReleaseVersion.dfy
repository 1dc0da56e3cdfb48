/** Picking the next iOS marketing version above a closed release train. */
module ReleaseVersion {
  import opened Options
  import opened RenderedLines

  datatype Version = Version(major: nat, minor: nat, patch: nat)
  datatype Result<T> = Ok(value: T) | ArgumentError

  predicate IsBlank(c: char) {
    '\t' <= c <= '\r' || c == ' ' || c == '\0'
  }

  function Strip(s: string): string
    decreases |s|
  {
    if s != [] && IsBlank(s[0]) then Strip(s[1..])
    else if s != [] && IsBlank(s[|s| - 1]) then Strip(s[..|s| - 1])
    else s
  }

  function Downcase(s: string): string {
    seq(|s|, k requires 0 <= k < |s| => if 'A' <= s[k] <= 'Z' then s[k] - 'A' + 'a' else s[k])
  }

  predicate Truthy(value: string) {
    Downcase(Strip(value)) in ["1", "true", "yes", "on"]
  }

  /** A run of digits followed by a dot: the number, and what comes after the dot. */
  function NumberThenDot(s: string): Option<(nat, string)> {
    var n := LeadingDigits(s);
    if 0 < n < |s| && s[n] == '.' then Some((Number(s[..n]), s[n + 1..])) else None
  }

  function Parse(version: string): Option<Version> {
    var major := NumberThenDot(Strip(version));
    if major.None? then None
    else
      var minor := NumberThenDot(major.value.1);
      if minor.None? then None
      else
        var rest := minor.value.1;
        if rest != [] && LeadingDigits(rest) == |rest|
        then Some(Version(major.value.0, minor.value.0, Number(rest[..LeadingDigits(rest)])))
        else None
  }

  function Format(v: Version): string {
    Decimal(v.major) + "." + Decimal(v.minor) + "." + Decimal(v.patch)
  }

  function Bumped(v: Version): Version {
    v.(patch := v.patch + 1)
  }

  function BumpPatch(version: string): Result<string> {
    var parts := Parse(version);
    if parts.None? then ArgumentError else Ok(Format(Bumped(parts.value)))
  }

  /** The order of `<=>` on the three numbers. */
  predicate Below(a: Version, b: Version) {
    || a.major < b.major
    || (a.major == b.major && (a.minor < b.minor || (a.minor == b.minor && a.patch < b.patch)))
  }

  predicate ClosedTrain(version: string, highestClosed: string) {
    var candidate, ceiling := Parse(version), Parse(highestClosed);
    candidate.Some? && ceiling.Some? && !Below(ceiling.value, candidate.value)
  }

  // ---------------------------------------------------------------------------------------------
  // Formatting and parsing
  // ---------------------------------------------------------------------------------------------

  lemma DottedNumber(n: nat, rest: string)
    ensures NumberThenDot(Decimal(n) + ("." + rest)) == Some((n, rest))
  {
    hide Decimal, Number, LeadingDigits;
    var s := Decimal(n) + ("." + rest);
    DigitRun(Decimal(n), "." + rest);
    assert s[..|Decimal(n)|] == Decimal(n) && s[|Decimal(n)| + 1..] == rest;
    DecimalRoundTrip(n);
  }

  lemma NothingToStrip(v: Version)
    ensures Strip(Format(v)) == Format(v)
  {
    hide Decimal;
    var s := Format(v);
    assert IsDigit(s[0]) && s[|s| - 1] == Decimal(v.patch)[|Decimal(v.patch)| - 1];
  }

  lemma LastNumber(n: nat)
    ensures var s := Decimal(n); s != [] && LeadingDigits(s) == |s| && Number(s[..LeadingDigits(s)]) == n
  {
    hide Decimal, Number, LeadingDigits;
    DigitRun(Decimal(n), []);
    assert Decimal(n) + [] == Decimal(n);
    assert Decimal(n)[..|Decimal(n)|] == Decimal(n);
    DecimalRoundTrip(n);
  }

  /** What is formatted parses back. */
  lemma FormatParses(v: Version)
    ensures Parse(Format(v)) == Some(v)
  {
    hide Decimal, Number, LeadingDigits, Strip, NumberThenDot;
    var minorOn := Decimal(v.minor) + ("." + Decimal(v.patch));
    assert Format(v) == Decimal(v.major) + ("." + minorOn);
    NothingToStrip(v);
    DottedNumber(v.major, minorOn);
    DottedNumber(v.minor, Decimal(v.patch));
    LastNumber(v.patch);
  }

  // What is a version, and what is stripped.

  predicate AreDigits(s: string) {
    s != [] && forall k :: 0 <= k < |s| ==> '0' <= s[k] <= '9'
  }

  predicate AreBlank(s: string) {
    forall k :: 0 <= k < |s| ==> IsBlank(s[k])
  }

  /** Stripping takes blanks off both ends, and all of them. */
  lemma {:induction false} StripMeans(s: string) returns (front: string, back: string)
    ensures s == front + Strip(s) + back && AreBlank(front) && AreBlank(back)
    ensures Strip(s) != [] ==> !IsBlank(Strip(s)[0]) && !IsBlank(Strip(s)[|Strip(s)| - 1])
    decreases |s|
  {
    hide IsBlank;
    if s != [] && IsBlank(s[0]) {
      front, back := StripMeans(s[1..]);
      front := [s[0]] + front;
    } else if s != [] && IsBlank(s[|s| - 1]) {
      front, back := StripMeans(s[..|s| - 1]);
      back := back + [s[|s| - 1]];
    } else {
      front, back := [], [];
    }
  }

  /** Three runs of digits with dots between them, read as numbers. */
  ghost predicate Spells(text: string, v: Version, x: string, y: string, z: string) {
    && AreDigits(x) && AreDigits(y) && AreDigits(z)
    && text == x + ("." + (y + ("." + z)))
    && v == Version(Number(x), Number(y), Number(z))
  }

  lemma NumberThenDotIff(s: string, x: string, rest: string)
    requires AreDigits(x) && s == x + ("." + rest)
    ensures NumberThenDot(s) == Some((Number(x), rest))
  {
    hide Number, LeadingDigits;
    DigitRun(x, "." + rest);
    assert s[..|x|] == x && s[|x| + 1..] == rest;
  }

  lemma NumberThenDotSplits(s: string) returns (x: string)
    requires NumberThenDot(s).Some?
    ensures AreDigits(x) && s == x + ("." + NumberThenDot(s).value.1) && NumberThenDot(s).value.0 == Number(x)
  {
    hide Number;
    x := s[..LeadingDigits(s)];
  }

  /** A text is a version exactly when it spells one behind and in front of blanks, and it is that one. */
  lemma SpelledParses(version: string, v: Version, x: string, y: string, z: string)
    requires Spells(Strip(version), v, x, y, z)
    ensures Parse(version) == Some(v)
  {
    hide Strip, NumberThenDot, Number, LeadingDigits;
    NumberThenDotIff(Strip(version), x, y + ("." + z));
    NumberThenDotIff(y + ("." + z), y, z);
    DigitRun(z, []);
    assert z + [] == z && z[..|z|] == z;
  }

  lemma ParsedIsSpelled(version: string) returns (x: string, y: string, z: string)
    requires Parse(version).Some?
    ensures Spells(Strip(version), Parse(version).value, x, y, z)
  {
    hide Strip, NumberThenDot, Number;
    x := NumberThenDotSplits(Strip(version));
    var rest := NumberThenDot(Strip(version)).value.1;
    y := NumberThenDotSplits(rest);
    z := NumberThenDot(rest).value.1;
    assert z[..LeadingDigits(z)] == z;
  }

  lemma ParsesIff(version: string, v: Version)
    ensures Parse(version) == Some(v) <==> exists x, y, z :: Spells(Strip(version), v, x, y, z)
  {
    hide Strip, Parse, Spells;
    if Parse(version) == Some(v) {
      var x, y, z := ParsedIsSpelled(version);
      assert Spells(Strip(version), v, x, y, z);
    }
    forall x, y, z | Spells(Strip(version), v, x, y, z) ensures Parse(version) == Some(v) {
      SpelledParses(version, v, x, y, z);
    }
  }

  // ---------------------------------------------------------------------------------------------
  // The bump loop
  // ---------------------------------------------------------------------------------------------

  /** The candidate after `n` bumps of a version that parses. */
  function BumpTimes(current: string, n: nat): Result<string> {
    if n == 0 then Ok(current)
    else
      var before := BumpTimes(current, n - 1);
      if before.ArgumentError? then before else BumpPatch(before.value)
  }

  lemma {:induction false} BumpTimesParses(current: string, n: nat)
    requires Parse(current).Some?
    ensures var v := Parse(current).value; var r := BumpTimes(current, n);
      r.Ok? && Parse(r.value) == Some(v.(patch := v.patch + n))
  {
    hide Parse, Format;
    if n > 0 {
      BumpTimesParses(current, n - 1);
      var v := Parse(current).value;
      FormatParses(v.(patch := v.patch + n));
    }
  }

  /** The ceiling, if it is a version, is not above every patch of the current version's train. */
  predicate CeilingWithinReach(current: string, highestClosed: string) {
    Parse(current).Some? && Parse(highestClosed).Some? ==>
      var v, ceiling := Parse(current).value, Parse(highestClosed).value;
      ceiling.major < v.major || (ceiling.major == v.major && ceiling.minor <= v.minor)
  }

  predicate IsOpen(candidate: Result<string>, highestClosed: string) {
    candidate.Ok? && !ClosedTrain(candidate.value, highestClosed)
  }

  /** Some number of bumps leaves the closed train exactly when the ceiling is within reach. */
  lemma LoopEndsIff(current: string, highestClosed: string)
    requires Parse(current).Some?
    ensures CeilingWithinReach(current, highestClosed)
        <==> exists n: nat :: n > 0 && IsOpen(BumpTimes(current, n), highestClosed)
  {
    hide Parse, BumpTimes;
    var v, ceiling := Parse(current).value, Parse(highestClosed);
    if CeilingWithinReach(current, highestClosed) {
      var n: nat := 1 + if ceiling.Some? then ceiling.value.patch else 0;
      BumpTimesParses(current, n);
      assert IsOpen(BumpTimes(current, n), highestClosed);
    } else {
      forall n: nat ensures !IsOpen(BumpTimes(current, n), highestClosed) {
        BumpTimesParses(current, n);
      }
    }
  }

  /** The least version of a train that is above two versions; `ceiling` is in or below the train. */
  ghost predicate IsLeastAbove(next: Version, v: Version, ceiling: Option<Version>) {
    && next.major == v.major && next.minor == v.minor
    && Below(v, next) && (ceiling.Some? ==> Below(ceiling.value, next))
    && forall patch: nat | patch < next.patch ::
         var other := v.(patch := patch); !Below(v, other) || (ceiling.Some? && !Below(ceiling.value, other))
  }

  /** The patch it has: one more than the greater of the two patches when both are in one train. */
  lemma LeastAboveIs(next: Version, v: Version, ceiling: Option<Version>)
    requires ceiling.Some? ==>
               ceiling.value.major < v.major || (ceiling.value.major == v.major && ceiling.value.minor <= v.minor)
    ensures IsLeastAbove(next, v, ceiling) <==>
              next == if ceiling.Some? && (ceiling.value.major, ceiling.value.minor) == (v.major, v.minor)
                         && ceiling.value.patch > v.patch
                      then Version(v.major, v.minor, ceiling.value.patch + 1)
                      else Version(v.major, v.minor, v.patch + 1)
  {
    var sameTrain := ceiling.Some? && (ceiling.value.major, ceiling.value.minor) == (v.major, v.minor);
    var patch := if sameTrain && ceiling.value.patch > v.patch then ceiling.value.patch + 1 else v.patch + 1;
    if IsLeastAbove(next, v, ceiling) && patch < next.patch {
      assert Below(v, v.(patch := patch));
    }
  }

  /**
   * The loop asks for nothing but that it ends, which `LoopEndsIff` says when. A requested version is
   * used as it is; without a bump the current one is.
   */
  method Resolve(requested: string, bumpPatch: string, currentVersion: string, highestClosed: string)
    returns (result: Result<string>)
    requires Strip(requested) == [] && Truthy(bumpPatch) ==> CeilingWithinReach(currentVersion, highestClosed)
    ensures Strip(requested) != [] ==> result == Ok(Strip(requested))
    ensures Strip(requested) == [] && !Truthy(bumpPatch) ==> result == Ok(currentVersion)
    ensures Strip(requested) == [] && Truthy(bumpPatch) ==>
      && (result == ArgumentError <==> Parse(currentVersion).None?)
      && (result.Ok? ==>
            && Parse(result.value).Some? && result.value == Format(Parse(result.value).value)
            && !ClosedTrain(result.value, highestClosed)
            && IsLeastAbove(Parse(result.value).value, Parse(currentVersion).value, Parse(highestClosed)))
  {
    hide Strip, Parse, Truthy;
    var exactVersion := Strip(requested);
    if exactVersion != [] {
      return Ok(exactVersion);
    }
    if !Truthy(bumpPatch) {
      return Ok(currentVersion);
    }
    var candidate := BumpPatch(currentVersion);
    if candidate.ArgumentError? {
      return candidate;
    }
    ghost var v, ceiling := Parse(currentVersion).value, Parse(highestClosed);
    FormatParses(Bumped(v));
    ghost var n := 1;
    while ClosedTrain(candidate.value, highestClosed)
      invariant n >= 1 && candidate.Ok? && candidate.value == Format(v.(patch := v.patch + n))
      invariant Parse(candidate.value) == Some(v.(patch := v.patch + n))
      invariant n > 1 ==> ceiling.Some? && !Below(ceiling.value, v.(patch := v.patch + n - 1))
      decreases if ceiling.Some? then ceiling.value.patch - v.patch - n else 0
    {
      FormatParses(Bumped(v.(patch := v.patch + n)));
      candidate := BumpPatch(candidate.value);
      n := n + 1;
    }
    result := candidate;
  }
}

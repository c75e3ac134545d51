/** Version checking of AppService (src/app.service.ts): dotted-version
    comparison, the message choice and the update decision. */
module AppVersion {
  import opened Common
  import opened Digits

  // ---------------------------------------------------------------- split

  /** `s.split(sep)`: the pieces between separators, always at least one. */
  function Split(s: string, sep: char): (parts: seq<string>)
    ensures |parts| >= 1
    ensures forall k :: 0 <= k < |parts| ==> sep !in parts[k]
    ensures Join(parts, sep) == s
  {
    if s == [] then [""]
    else
      var rest := Split(s[1..], sep);
      if s[0] == sep then [""] + rest
      else [[s[0]] + rest[0]] + rest[1..]
  }

  /** `parts.join(sep)`: the inverse of Split. */
  function Join(parts: seq<string>, sep: char): string
    requires |parts| >= 1
  {
    if |parts| == 1 then parts[0] else parts[0] + [sep] + Join(parts[1..], sep)
  }

  // ---------------------------------------------------------------- parts

  /** `Number(part)` followed by `|| 0`: a digit string keeps its value, the
      empty string is 0 and anything else (NaN) falls back to 0. */
  function PartValue(p: string): (n: nat)
    ensures (exists k :: 0 <= k < |p| && !IsDigit(p[k])) ==> n == 0
  {
    if IsDigits(p) then DigitsValue(p) else 0
  }

  /** `vparts[i] || 0`: a missing part counts as 0. */
  function PartAt(parts: seq<string>, i: int): nat {
    if 0 <= i < |parts| then PartValue(parts[i]) else 0
  }

  function Max(a: int, b: int): int {
    if a >= b then a else b
  }

  // ---------------------------------------------------------------- compare

  /** The comparison from index i on, as the loop of compareVersions makes it. */
  function CmpFrom(p1: seq<string>, p2: seq<string>, i: nat): (r: int)
    ensures r == 0 || r == 1 || r == -1
    decreases Max(|p1|, |p2|) - i
  {
    if i >= Max(|p1|, |p2|) then 0
    else
      var a, b := PartAt(p1, i), PartAt(p2, i);
      if a > b then 1 else if a < b then -1 else CmpFrom(p1, p2, i + 1)
  }

  /** The comparison is 0 exactly when all parts from i on agree, and
      otherwise its sign is that of the first index where they differ. */
  lemma {:induction false} CmpFromMeaning(p1: seq<string>, p2: seq<string>, i: nat)
    ensures CmpFrom(p1, p2, i) == 0 <==> forall j :: i <= j < Max(|p1|, |p2|) ==> PartAt(p1, j) == PartAt(p2, j)
    ensures CmpFrom(p1, p2, i) != 0 ==>
              exists j :: i <= j < Max(|p1|, |p2|) && PartAt(p1, j) != PartAt(p2, j)
                          && (CmpFrom(p1, p2, i) == 1 <==> PartAt(p1, j) > PartAt(p2, j))
                          && forall k :: i <= k < j ==> PartAt(p1, k) == PartAt(p2, k)
    decreases Max(|p1|, |p2|) - i
  {
    if i < Max(|p1|, |p2|) {
      if PartAt(p1, i) == PartAt(p2, i) {
        CmpFromMeaning(p1, p2, i + 1);
        if CmpFrom(p1, p2, i) != 0 {
          var j :| i + 1 <= j < Max(|p1|, |p2|) && PartAt(p1, j) != PartAt(p2, j)
                   && (CmpFrom(p1, p2, i) == 1 <==> PartAt(p1, j) > PartAt(p2, j))
                   && forall k :: i + 1 <= k < j ==> PartAt(p1, k) == PartAt(p2, k);
          assert forall k :: i <= k < j ==> PartAt(p1, k) == PartAt(p2, k);
        }
      } else {
        assert forall k :: i <= k < i ==> PartAt(p1, k) == PartAt(p2, k);
      }
    }
  }

  /** compareVersions as a specification: 1, -1 or 0, decided at the first
      index where the numeric parts differ. */
  function Compare(v1: string, v2: string): (r: int)
    ensures r == 0 || r == 1 || r == -1
    ensures var p1, p2 := Split(v1, '.'), Split(v2, '.');
            r == 0 <==> forall j :: 0 <= j < Max(|p1|, |p2|) ==> PartAt(p1, j) == PartAt(p2, j)
  {
    var p1, p2 := Split(v1, '.'), Split(v2, '.');
    CmpFromMeaning(p1, p2, 0);
    CmpFrom(p1, p2, 0)
  }

  /** compareVersions: the index loop with early returns. */
  method CompareVersions(version1: string, version2: string) returns (r: int)
    ensures r == Compare(version1, version2)
    ensures r == 0 || r == 1 || r == -1
  {
    var v1parts := Split(version1, '.');
    var v2parts := Split(version2, '.');
    var maxLength := Max(|v1parts|, |v2parts|);
    var i := 0;
    while i < maxLength
      invariant 0 <= i <= maxLength
      invariant CmpFrom(v1parts, v2parts, i) == CmpFrom(v1parts, v2parts, 0)
    {
      var v1part := PartAt(v1parts, i);
      var v2part := PartAt(v2parts, i);
      if v1part > v2part {
        return 1;
      }
      if v1part < v2part {
        return -1;
      }
      i := i + 1;
    }
    return 0;
  }

  lemma {:induction false} CmpFromAntisymmetric(p1: seq<string>, p2: seq<string>, i: nat)
    ensures CmpFrom(p1, p2, i) == -CmpFrom(p2, p1, i)
    decreases Max(|p1|, |p2|) - i
  {
    if i < Max(|p1|, |p2|) && PartAt(p1, i) == PartAt(p2, i) {
      CmpFromAntisymmetric(p1, p2, i + 1);
    }
  }

  /** A version compares equal to itself. */
  lemma CompareReflexive(v: string)
    ensures Compare(v, v) == 0
  {
    CmpFromMeaning(Split(v, '.'), Split(v, '.'), 0);
  }

  /** Swapping the arguments negates the result. */
  lemma CompareAntisymmetric(a: string, b: string)
    ensures Compare(a, b) == -Compare(b, a)
  {
    CmpFromAntisymmetric(Split(a, '.'), Split(b, '.'), 0);
  }

  /** Extra zero components at the end are insignificant. */
  lemma TrailingZeros(p: seq<string>, zeros: seq<string>)
    requires forall k :: 0 <= k < |zeros| ==> PartValue(zeros[k]) == 0
    ensures CmpFrom(p + zeros, p, 0) == 0
  {
    CmpFromMeaning(p + zeros, p, 0);
    forall j | 0 <= j < Max(|p + zeros|, |p|)
      ensures PartAt(p + zeros, j) == PartAt(p, j)
    {
      if j >= |p| {
        assert (p + zeros)[j] == zeros[j - |p|];
      }
    }
  }

  /** `1.0` compares equal to `1.0.0`. */
  lemma TrailingZeroExample()
    ensures Compare("1.0", "1.0.0") == 0
  {
    assert Split("0", '.') == ["0"];
    assert ".0"[1..] == "0";
    assert Split(".0", '.') == ["", "0"];
    assert "1.0"[1..] == ".0";
    assert ['1'] + "" == "1";
    assert Split("1.0", '.') == ["1", "0"];
    assert "0.0"[1..] == ".0";
    assert Split("0.0", '.') == ["0", "0"];
    assert ".0.0"[1..] == "0.0";
    assert Split(".0.0", '.') == ["", "0", "0"];
    assert "1.0.0"[1..] == ".0.0";
    assert Split("1.0.0", '.') == ["1", "0", "0"];
    assert PartValue("0") == 0;
  }

  /** Parts compare as numbers, not as text: `1.10` is above `1.9`. */
  lemma NumericExample()
    ensures Compare("1.10", "1.9") == 1
  {
    assert Split("0", '.') == ["0"];
    assert "10"[1..] == "0";
    assert Split("10", '.') == ["10"];
    assert ".10"[1..] == "10";
    assert Split(".10", '.') == ["", "10"];
    assert "1.10"[1..] == ".10";
    assert ['1'] + "" == "1";
    assert Split("1.10", '.') == ["1", "10"];
    assert Split("9", '.') == ["9"];
    assert ".9"[1..] == "9";
    assert Split(".9", '.') == ["", "9"];
    assert "1.9"[1..] == ".9";
    assert Split("1.9", '.') == ["1", "9"];
    assert DigitsValue("1") == 1;
    assert DigitsValue("10") == 10;
    assert DigitsValue("9") == 9;
  }

  /** A non-numeric part counts as 0. */
  lemma NonNumericExample()
    ensures Compare("1.x", "1") == 0
  {
    assert Split("x", '.') == ["x"];
    assert ".x"[1..] == "x";
    assert Split(".x", '.') == ["", "x"];
    assert "1.x"[1..] == ".x";
    assert ['1'] + "" == "1";
    assert Split("1.x", '.') == ["1", "x"];
    assert Split("1", '.') == ["1"];
    assert !IsDigit("x"[0]);
    assert PartValue("x") == 0;
  }

  // ---------------------------------------------------------------- decision

  datatype VersionMessage = Outdated | UpdateAvailable | UpToDate

  /** getVersionMessage: outdated when forced or below the minimum, else an
      update notice when not the latest, else up to date. */
  function GetVersionMessage(isValid: bool, isLatest: bool, forceUpdate: bool): (m: VersionMessage)
    ensures m == Outdated <==> forceUpdate || !isValid
    ensures m == UpdateAvailable <==> !forceUpdate && isValid && !isLatest
    ensures m == UpToDate <==> !forceUpdate && isValid && isLatest
  {
    if forceUpdate || !isValid then Outdated
    else if !isLatest then UpdateAvailable
    else UpToDate
  }

  /** The active appVersion row for the platform. */
  datatype Config = Config(minVersion: string, latestVersion: string, forceUpdate: bool, downloadUrl: string)

  datatype VersionCheck = VersionCheck(
    isValid: bool,
    isLatest: bool,
    currentVersion: string,
    minRequiredVersion: string,
    userVersion: string,
    message: Option<VersionMessage>,  // None: the "no configuration found" message
    forceUpdate: bool,
    optionalUpdate: bool,
    downloadUrl: Option<string>)

  /** validateVersion, with the platform's active configuration passed in. */
  function ValidateVersion(version: string, config: Option<Config>): (r: Result<VersionCheck>)
    ensures version == "" <==> r == Fail(MissingVersion)
    ensures r.Ok? ==> r.value.userVersion == version
    ensures r.Ok? && config.None? ==>
              r.value.isValid && r.value.isLatest && !r.value.forceUpdate && !r.value.optionalUpdate
              && r.value.downloadUrl.None?
    ensures r.Ok? && config.Some? ==>
              && (r.value.isValid <==> Compare(version, config.value.minVersion) >= 0)
              && (r.value.isLatest <==> Compare(version, config.value.latestVersion) >= 0)
              && (r.value.forceUpdate <==> config.value.forceUpdate && !r.value.isValid)
              && (r.value.optionalUpdate <==> r.value.isValid && !r.value.isLatest)
              && r.value.currentVersion == config.value.latestVersion
              && r.value.minRequiredVersion == config.value.minVersion
              && r.value.downloadUrl == Some(config.value.downloadUrl)
    ensures r.Ok? ==> !(r.value.forceUpdate && r.value.optionalUpdate)
  {
    if version == "" then Fail(MissingVersion)
    else if config.None? then
      Ok(VersionCheck(true, true, version, version, version, None, false, false, None))
    else
      var c := config.value;
      var isValid := Compare(version, c.minVersion) >= 0;
      var isLatest := Compare(version, c.latestVersion) >= 0;
      var force := c.forceUpdate && !isValid;
      Ok(VersionCheck(isValid, isLatest, c.latestVersion, c.minVersion, version,
                      Some(GetVersionMessage(isValid, isLatest, force)), force, isValid && !isLatest,
                      Some(c.downloadUrl)))
  }

  /** With a configuration, the message is the one getVersionMessage picks
      for the computed flags. */
  lemma ValidateVersionMessage(version: string, c: Config)
    requires version != ""
    ensures ValidateVersion(version, Some(c)).value.message ==
            Some(GetVersionMessage(Compare(version, c.minVersion) >= 0,
                                   Compare(version, c.latestVersion) >= 0,
                                   c.forceUpdate && Compare(version, c.minVersion) < 0))
  {
  }
}

/** The `validate` predicate of the IsDateTime decorator
    (src/common/decorators/ClassValidator.decorator.ts): a string test
    against `^\d{4}-\d{2}-\d{2}T\d{2}:\d{2}:\d{2}(\.\d{3})?(Z|[+-]\d{2}:\d{2})?$`. */
module DateTimeValidator {
  import opened JsValues
  import opened Digits

  /** `\d{n}` at position i. */
  predicate DigitsAt(s: string, i: nat, n: nat)
    requires i + n <= |s|
    decreases n
  {
    n == 0 || (IsDigit(s[i]) && DigitsAt(s, i + 1, n - 1))
  }

  /** `\d{4}-\d{2}-\d{2}T\d{2}:\d{2}:\d{2}`: 19 characters, digits except for
      the fixed separators. */
  predicate IsDateTimeBody(s: string) {
    && |s| == 19
    && DigitsAt(s, 0, 4) && s[4] == '-' && DigitsAt(s, 5, 2) && s[7] == '-' && DigitsAt(s, 8, 2)
    && s[10] == 'T'
    && DigitsAt(s, 11, 2) && s[13] == ':' && DigitsAt(s, 14, 2) && s[16] == ':' && DigitsAt(s, 17, 2)
  }

  /** `(\.\d{3})?` */
  predicate IsFraction(s: string) {
    s == "" || (|s| == 4 && s[0] == '.' && DigitsAt(s, 1, 3))
  }

  /** `(Z|[+-]\d{2}:\d{2})?` */
  predicate IsOffset(s: string) {
    || s == "" || s == "Z"
    || (|s| == 6 && (s[0] == '+' || s[0] == '-') && DigitsAt(s, 1, 2) && s[3] == ':' && DigitsAt(s, 4, 2))
  }

  /** The matcher read left to right: after the 19-character body, a `.`
      starts the fraction (no offset can start with one, so there is nothing
      to backtrack to), and the rest must be an offset or nothing. */
  predicate MatchesDateTime(s: string)
    ensures MatchesDateTime(s) ==> |s| in {19, 20, 23, 24, 25, 29}
  {
    && |s| >= 19 && IsDateTimeBody(s[..19])
    && var rest := s[19..];
       if |rest| >= 4 && rest[0] == '.' then IsFraction(rest[..4]) && IsOffset(rest[4..])
       else IsOffset(rest)
  }

  /** validate(value): a string that matches the pattern. */
  function Validate(value: JsValue): (r: bool)
    ensures r ==> value.Str?
    ensures r <==> value.Str? &&
                   exists i :: 19 <= i <= |value.s| && IsDateTimeBody(value.s[..19])
                                && IsFraction(value.s[19..i]) && IsOffset(value.s[i..])
  {
    match value
    case Str(s) => MatchesIffSplits(s); MatchesDateTime(s)
    case _ => false
  }

  /** The left-to-right matcher accepts exactly the strings that split into
      body, optional fraction and optional offset. */
  lemma MatchesIffSplits(s: string)
    ensures MatchesDateTime(s) <==>
              exists i :: 19 <= i <= |s| && IsDateTimeBody(s[..19]) && IsFraction(s[19..i]) && IsOffset(s[i..])
  {
    if MatchesDateTime(s) {
      var rest := s[19..];
      if |rest| >= 4 && rest[0] == '.' {
        SliceOfTail(s, 19, 4);
        assert 19 <= 23 <= |s| && IsFraction(s[19..23]) && IsOffset(s[23..]);
      } else {
        assert s[19..19] == "" && s[19..] == rest;
        assert IsFraction(s[19..19]) && IsOffset(s[19..]);
      }
    }
    if exists i :: 19 <= i <= |s| && IsDateTimeBody(s[..19]) && IsFraction(s[19..i]) && IsOffset(s[i..]) {
      var i :| 19 <= i <= |s| && IsDateTimeBody(s[..19]) && IsFraction(s[19..i]) && IsOffset(s[i..]);
      var rest := s[19..];
      if i == 19 {
        assert s[i..] == rest;
        assert |rest| > 0 ==> rest[0] != '.';
      } else {
        assert i == 23;
        SliceOfTail(s, 19, 4);
      }
    }
  }

  /** Slicing the tail s[a..] at n is slicing s at a + n. */
  lemma SliceOfTail(s: string, a: nat, n: nat)
    requires a + n <= |s|
    ensures s[a..][..n] == s[a..a + n] && s[a..][n..] == s[a + n..]
  {
    assert forall k :: 0 <= k < n ==> s[a..][..n][k] == s[a..a + n][k];
    assert forall k :: 0 <= k < |s| - a - n ==> s[a..][n..][k] == s[a + n..][k];
  }

  /** Non-strings are rejected, whatever they hold. */
  lemma RejectsNonStrings(n: real, b: bool)
    ensures !Validate(Num(n)) && !Validate(Bool(b)) && !Validate(Null) && !Validate(Undefined)
  {
  }

  /** The pattern checks shapes, not ranges: month 13 and hour 99 pass; a
      space separator, a two-digit fraction or a trailing character fail. */
  lemma ShapeNotRange()
    ensures Validate(Str("2024-13-01T99:00:00"))
    ensures Validate(Str("2024-01-01T10:00:00.123Z"))
    ensures Validate(Str("2024-01-01T10:00:00-03:00"))
    ensures !Validate(Str("2024-01-01 10:00:00"))
    ensures !Validate(Str("2024-01-01T10:00:00.12Z"))
    ensures !Validate(Str("2024-01-01T10:00:00Zx"))
  {
    AcceptsOutOfRangeFields();
    AcceptsFractionAndZulu();
    AcceptsNumericOffset();
    RejectsMalformed();
  }

  /** Month 13 and hour 99 have the right shape. */
  lemma AcceptsOutOfRangeFields()
    ensures Validate(Str("2024-13-01T99:00:00"))
  {
    assert IsDateTimeBody("2024-13-01T99:00:00");
    assert MatchesDateTime("2024-13-01T99:00:00");
  }

  /** A three-digit fraction followed by `Z`. */
  lemma AcceptsFractionAndZulu()
    ensures Validate(Str("2024-01-01T10:00:00.123Z"))
  {
    var s := "2024-01-01T10:00:00.123Z";
    assert IsDateTimeBody("2024-01-01T10:00:00");
    assert s[..19] == "2024-01-01T10:00:00";
    assert s[19..][..4] == ".123" && s[19..][4..] == "Z";
    assert IsFraction(".123");
  }

  /** A numeric offset with no fraction. */
  lemma AcceptsNumericOffset()
    ensures Validate(Str("2024-01-01T10:00:00-03:00"))
  {
    var s := "2024-01-01T10:00:00-03:00";
    assert IsDateTimeBody("2024-01-01T10:00:00");
    assert s[..19] == "2024-01-01T10:00:00";
    assert s[19..] == "-03:00";
    assert IsOffset("-03:00");
  }

  /** A space separator, a two-digit fraction, a trailing character. */
  lemma RejectsMalformed()
    ensures !Validate(Str("2024-01-01 10:00:00"))
    ensures !Validate(Str("2024-01-01T10:00:00.12Z"))
    ensures !Validate(Str("2024-01-01T10:00:00Zx"))
  {
    assert !MatchesDateTime("2024-01-01 10:00:00");
    assert !MatchesDateTime("2024-01-01T10:00:00.12Z");
    assert !MatchesDateTime("2024-01-01T10:00:00Zx");
  }
}

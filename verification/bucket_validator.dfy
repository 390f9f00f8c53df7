/** The bucket-name check: null, then empty, then the naming pattern
    `^(?=.{3,63}$)(?!(\d+\.){3}\d+$)([a-z0-9](-?[a-z0-9])*(\.[a-z0-9](-?[a-z0-9])*)*)$`.
    The pattern is modelled by grammars that follow its three parts; the
    lemmas relate them to character-level and label-level readings. */
module BucketValidator {
  import opened Common
  import opened Errors
  import Text

  const MinLength: nat := 3
  const MaxLength: nat := 63

  /** `[a-z0-9]` */
  predicate IsLowerAlnum(c: char)
  {
    'a' <= c <= 'z' || '0' <= c <= '9'
  }

  /** `\d` without the UNICODE_CHARACTER_CLASS flag: ASCII digits only. */
  predicate IsDigit(c: char)
  {
    '0' <= c <= '9'
  }

  predicate IsSeparator(c: char)
  {
    c == '.' || c == '-'
  }

  // ---------------------------------------------------------------------------
  // The pattern, part by part
  // ---------------------------------------------------------------------------

  /** What may follow the first character of the main group: the group
      `[a-z0-9](-?[a-z0-9])*(\.[a-z0-9](-?[a-z0-9])*)*` is one alphanumeric
      followed by steps, each an alphanumeric, `-` then an alphanumeric, or
      `.` then an alphanumeric. */
  predicate NameRest(t: string)
    decreases |t|
  {
    if t == [] then true
    else if IsLowerAlnum(t[0]) then NameRest(t[1..])
    else IsSeparator(t[0]) && |t| >= 2 && IsLowerAlnum(t[1]) && NameRest(t[2..])
  }

  /** The main group of the pattern, matched against the whole string. */
  predicate MatchesName(s: string)
  {
    |s| >= 1 && IsLowerAlnum(s[0]) && NameRest(s[1..])
  }

  /** `\d+(\.\d+){dots}`, which is the language of `(\d+\.){dots}\d+`. */
  predicate DigitRun(s: string, dots: nat)
    decreases |s|, 1
  {
    |s| >= 1 && IsDigit(s[0]) && DigitRunRest(s[1..], dots)
  }

  /** What may follow the first digit of a `DigitRun`. */
  predicate DigitRunRest(t: string, dots: nat)
    decreases |t|, 0
  {
    if t == [] then dots == 0
    else if IsDigit(t[0]) then DigitRunRest(t[1..], dots)
    else t[0] == '.' && dots > 0 && DigitRun(t[1..], dots - 1)
  }

  /** The negative lookahead `(?!(\d+\.){3}\d+$)` rejects exactly these. */
  predicate DottedQuad(s: string)
  {
    DigitRun(s, 3)
  }

  /** The whole pattern. The lookahead `.{3,63}$` is read as a length bound:
      a line terminator, which `.` would not match, is rejected by the main
      group anyway. */
  predicate MatchesPattern(s: string)
  {
    MinLength <= |s| <= MaxLength && !DottedQuad(s) && MatchesName(s)
  }

  /** `S3BucketValidator.validate`: null first, then empty, then the pattern. */
  function Validate(name: Option<string>): (c: Check<Error>)
    ensures name.None? ==> c == Fail(NullBucketName)
    ensures name == Some("") ==> c == Fail(EmptyBucketName)
    ensures c.Pass? <==>
              && name.Some?
              && MinLength <= |name.value| <= MaxLength
              && WellFormed(name.value)
              && !FourDigitGroups(name.value)
    ensures c.Fail? && name.Some? && name.value != "" ==> c == Fail(InvalidBucketName(name.value))
  {
    match name
    case None => Fail(NullBucketName)
    case Some(s) =>
      if s == [] then Fail(EmptyBucketName)
      else
        NameIffWellFormed(s);
        DottedQuadIffFourGroups(s);
        if MatchesPattern(s) then Pass else Fail(InvalidBucketName(s))
  }

  // ---------------------------------------------------------------------------
  // Character-level reading of the main group
  // ---------------------------------------------------------------------------

  /** Lowercase letters, digits, dots and hyphens only; starts and ends with an
      alphanumeric; every dot or hyphen sits between two alphanumerics. */
  predicate WellFormed(s: string)
  {
    && |s| >= 1
    && IsLowerAlnum(s[0])
    && IsLowerAlnum(s[|s| - 1])
    && (forall i | 0 <= i < |s| :: IsLowerAlnum(s[i]) || IsSeparator(s[i]))
    && (forall i | 0 <= i < |s| && IsSeparator(s[i]) ::
          0 < i < |s| - 1 && IsLowerAlnum(s[i - 1]) && IsLowerAlnum(s[i + 1]))
  }

  /** Character-level reading of `NameRest`: allowed characters only, and every
      separator is followed by an alphanumeric. */
  predicate TailOk(t: string)
  {
    && (forall i | 0 <= i < |t| :: IsLowerAlnum(t[i]) || IsSeparator(t[i]))
    && (forall i | 0 <= i < |t| && IsSeparator(t[i]) :: i + 1 < |t| && IsLowerAlnum(t[i + 1]))
  }

  lemma TailOkCons(t: string)
    requires t != []
    ensures TailOk(t) <==>
              && (IsLowerAlnum(t[0]) || IsSeparator(t[0]))
              && (IsSeparator(t[0]) ==> |t| >= 2 && IsLowerAlnum(t[1]))
              && TailOk(t[1..])
  {
    if TailOk(t) {
      forall i | 0 <= i < |t[1..]| && IsSeparator(t[1..][i])
        ensures i + 1 < |t[1..]| && IsLowerAlnum(t[1..][i + 1])
      {
        assert IsSeparator(t[i + 1]);
      }
    }
  }

  lemma {:induction false} NameRestIffTailOk(t: string)
    ensures NameRest(t) <==> TailOk(t)
    decreases |t|
  {
    if t != [] {
      TailOkCons(t);
      if IsLowerAlnum(t[0]) {
        NameRestIffTailOk(t[1..]);
      } else if IsSeparator(t[0]) && |t| >= 2 && IsLowerAlnum(t[1]) {
        NameRestIffTailOk(t[2..]);
        TailOkCons(t[1..]);
        assert t[1..][1..] == t[2..];
      }
    }
  }

  /** The main group of the pattern accepts exactly the well-formed strings. */
  lemma NameIffWellFormed(s: string)
    ensures MatchesName(s) <==> WellFormed(s)
  {
    if |s| >= 1 {
      NameRestIffTailOk(s[1..]);
      if MatchesName(s) {
        var t := s[1..];
        assert TailOk(t);
        forall i | 0 <= i < |s| && IsSeparator(s[i])
          ensures 0 < i < |s| - 1 && IsLowerAlnum(s[i - 1]) && IsLowerAlnum(s[i + 1])
        {
          assert IsSeparator(t[i - 1]);
          if i > 1 {
            assert s[i - 1] == t[i - 2];
          }
        }
        if |s| > 1 {
          assert s[|s| - 1] == t[|t| - 1];
        }
      }
      if WellFormed(s) {
        var t := s[1..];
        forall i | 0 <= i < |t| && IsSeparator(t[i])
          ensures i + 1 < |t| && IsLowerAlnum(t[i + 1])
        {
          assert IsSeparator(s[i + 1]);
        }
      }
    }
  }

  // ---------------------------------------------------------------------------
  // Label-level reading of the main group
  // ---------------------------------------------------------------------------

  /** What follows the first character of a label: `(-?[a-z0-9])*`. */
  predicate LabelRest(t: string)
    decreases |t|
  {
    if t == [] then true
    else if IsLowerAlnum(t[0]) then LabelRest(t[1..])
    else t[0] == '-' && |t| >= 2 && IsLowerAlnum(t[1]) && LabelRest(t[2..])
  }

  /** One label `[a-z0-9](-?[a-z0-9])*`: alphanumerics with single interior hyphens. */
  predicate Label(t: string)
  {
    |t| >= 1 && IsLowerAlnum(t[0]) && LabelRest(t[1..])
  }

  predicate AllLabels(parts: seq<string>)
  {
    forall i | 0 <= i < |parts| :: Label(parts[i])
  }

  lemma {:induction false} NameRestIffLabels(t: string)
    ensures var p := Text.Split(t, '.');
            NameRest(t) <==> LabelRest(p[0]) && AllLabels(p[1..])
    decreases |t|
  {
    var p := Text.Split(t, '.');
    if t == [] {
      assert p == [[]];
    } else {
      var q := Text.Split(t[1..], '.');
      if IsLowerAlnum(t[0]) {
        NameRestIffLabels(t[1..]);
        assert p == [[t[0]] + q[0]] + q[1..];
        assert ([t[0]] + q[0])[1..] == q[0];
      } else if t[0] == '-' {
        assert p == [['-'] + q[0]] + q[1..];
        assert (['-'] + q[0])[1..] == q[0];
        if |t| >= 2 && IsLowerAlnum(t[1]) {
          var r := Text.Split(t[2..], '.');
          NameRestIffLabels(t[2..]);
          assert t[1..][1..] == t[2..];
          assert q == [[t[1]] + r[0]] + r[1..];
          assert ([t[1]] + r[0])[1..] == r[0];
        }
      } else if t[0] == '.' {
        assert p == [[]] + q;
        assert p[1..] == q;
        if |t| >= 2 && IsLowerAlnum(t[1]) {
          var r := Text.Split(t[2..], '.');
          NameRestIffLabels(t[2..]);
          assert t[1..][1..] == t[2..];
          assert q == [[t[1]] + r[0]] + r[1..];
          assert ([t[1]] + r[0])[1..] == r[0];
          assert q[1..] == r[1..];
          if NameRest(t) {
            forall i | 0 <= i < |q| ensures Label(q[i]) {
              if i > 0 { assert q[i] == r[1..][i - 1]; }
            }
          }
        } else if |t| >= 2 && t[1] == '.' {
          assert q == [[]] + Text.Split(t[2..], '.');
          assert !Label(q[0]);
        } else if |t| >= 2 {
          assert q[0][0] == t[1];
          assert !Label(q[0]);
        } else {
          assert t[1..] == [];
          assert !Label(q[0]);
        }
      } else {
        assert p[0] == [t[0]] + q[0];
      }
    }
  }

  /** The main group accepts exactly the dot-separated sequences of labels. */
  lemma NameIffLabels(s: string)
    ensures MatchesName(s) <==> AllLabels(Text.Split(s, '.'))
  {
    var p := Text.Split(s, '.');
    if s == [] {
      assert p == [[]];
    } else {
      var q := Text.Split(s[1..], '.');
      NameRestIffLabels(s[1..]);
      if s[0] == '.' {
        assert p == [[]] + q;
        assert !Label(p[0]);
      } else {
        assert p == [[s[0]] + q[0]] + q[1..];
        assert p[0][1..] == q[0];
        assert p[1..] == q[1..];
        if AllLabels(p) {
          assert Label(p[0]);
        }
        if MatchesName(s) {
          forall i | 0 <= i < |p| ensures Label(p[i]) {
            if i > 0 { assert p[i] == q[1..][i - 1]; }
          }
        }
      }
    }
  }

  // ---------------------------------------------------------------------------
  // Group-level reading of the dotted-quad lookahead
  // ---------------------------------------------------------------------------

  predicate AllDigits(t: string)
  {
    forall i | 0 <= i < |t| :: IsDigit(t[i])
  }

  /** One non-empty run of digits, `\d+`. */
  predicate DigitGroup(t: string)
  {
    |t| >= 1 && AllDigits(t)
  }

  /** Exactly four dot-separated groups, each a non-empty run of digits. */
  predicate FourDigitGroups(s: string)
  {
    var p := Text.Split(s, '.');
    |p| == 4 && forall i | 0 <= i < 4 :: DigitGroup(p[i])
  }

  lemma AllDigitsCons(c: char, t: string)
    ensures AllDigits([c] + t) <==> IsDigit(c) && AllDigits(t)
  {
    if IsDigit(c) && AllDigits(t) {
      forall i | 0 <= i < |[c] + t| ensures IsDigit(([c] + t)[i]) {
        if i > 0 { assert ([c] + t)[i] == t[i - 1]; }
      }
    }
    if AllDigits([c] + t) {
      assert ([c] + t)[0] == c;
      forall i | 0 <= i < |t| ensures IsDigit(t[i]) {
        assert t[i] == ([c] + t)[i + 1];
      }
    }
  }

  /** The pieces after the first of `p` are non-empty digit runs. */
  predicate LaterGroups(p: seq<string>)
  {
    forall i | 1 <= i < |p| :: DigitGroup(p[i])
  }

  /** Reading of `DigitRunRest` over the pieces of `t` between dots. */
  predicate RestGroups(t: string, dots: nat)
  {
    var p := Text.Split(t, '.');
    |p| == dots + 1 && AllDigits(p[0]) && LaterGroups(p)
  }

  /** Prepending a non-empty first piece to later pieces. */
  lemma LaterGroupsCons(x: string, q: seq<string>)
    requires |q| >= 1
    ensures LaterGroups([x] + q) <==> DigitGroup(q[0]) && LaterGroups(q)
  {
    var p := [x] + q;
    if LaterGroups(p) {
      assert DigitGroup(p[1]);
      forall j | 1 <= j < |q| ensures DigitGroup(q[j]) {
        assert DigitGroup(p[j + 1]);
      }
    }
    if DigitGroup(q[0]) && LaterGroups(q) {
      forall i | 1 <= i < |p| ensures DigitGroup(p[i]) {
        assert p[i] == q[i - 1];
      }
    }
  }

  /** Extending the first piece leaves the later pieces unchanged. */
  lemma LaterGroupsHead(x: string, q: seq<string>)
    requires |q| >= 1
    ensures LaterGroups([x] + q[1..]) <==> LaterGroups(q)
  {
    var p := [x] + q[1..];
    assert forall i | 1 <= i < |p| :: p[i] == q[i];
  }

  lemma {:induction false} DigitRunRestIffGroups(t: string, dots: nat)
    ensures DigitRunRest(t, dots) <==> RestGroups(t, dots)
    decreases |t|
  {
    var p := Text.Split(t, '.');
    if t == [] {
      assert p == [[]];
    } else {
      var q := Text.Split(t[1..], '.');
      if IsDigit(t[0]) {
        DigitRunRestIffGroups(t[1..], dots);
        assert p == [[t[0]] + q[0]] + q[1..];
        AllDigitsCons(t[0], q[0]);
        LaterGroupsHead([t[0]] + q[0], q);
      } else if t[0] == '.' {
        assert p == [[]] + q;
        LaterGroupsCons([], q);
        DotGroups(t, dots);
      } else {
        assert p[0] == [t[0]] + q[0];
        assert !IsDigit(p[0][0]);
      }
    }
  }

  /** The case of `DigitRunRestIffGroups` where `t` starts with a dot. */
  lemma {:induction false} DotGroups(t: string, dots: nat)
    requires |t| >= 1 && t[0] == '.'
    ensures var q := Text.Split(t[1..], '.');
            DigitRunRest(t, dots) <==> |q| == dots && DigitGroup(q[0]) && LaterGroups(q)
    decreases |t|, 0
  {
    var q := Text.Split(t[1..], '.');
    if |t| >= 2 && IsDigit(t[1]) {
      var r := Text.Split(t[2..], '.');
      assert t[1..][1..] == t[2..];
      assert q == [[t[1]] + r[0]] + r[1..];
      AllDigitsCons(t[1], r[0]);
      LaterGroupsHead([t[1]] + r[0], r);
      if dots > 0 {
        DigitRunRestIffGroups(t[2..], dots - 1);
      }
    } else if |t| >= 2 && t[1] == '.' {
      assert q == [[]] + Text.Split(t[2..], '.');
    } else if |t| >= 2 {
      assert q[0][0] == t[1];
    } else {
      assert t[1..] == [];
    }
  }

  /** The lookahead rejects exactly the strings of four dot-separated digit groups. */
  lemma DottedQuadIffFourGroups(s: string)
    ensures DottedQuad(s) <==> FourDigitGroups(s)
  {
    var p := Text.Split(s, '.');
    if s == [] {
      assert p == [[]];
    } else {
      var q := Text.Split(s[1..], '.');
      DigitRunRestIffGroups(s[1..], 3);
      if s[0] == '.' {
        assert p == [[]] + q;
        assert !DigitGroup(p[0]);
      } else {
        assert p == [[s[0]] + q[0]] + q[1..];
        AllDigitsCons(s[0], q[0]);
        LaterGroupsHead(p[0], q);
        assert FourDigitGroups(s) <==> |p| == 4 && DigitGroup(p[0]) && LaterGroups(p);
      }
    }
  }
}

/** What the bucket-name check promises its callers, stated against the
    character-level and label-level readings of the naming pattern. */
module BucketNameProperties {
  import opened Common
  import opened Errors
  import opened BucketValidator
  import Text

  /** Null is rejected first and the empty string second, whatever the pattern says. */
  lemma NullThenEmpty(name: Option<string>)
    ensures Validate(None) == Fail(NullBucketName)
    ensures Validate(Some("")) == Fail(EmptyBucketName)
    ensures name.Some? && name.value != [] && Validate(name).Fail? ==>
              Validate(name).error == InvalidBucketName(name.value)
  {
  }

  /** Accepted names are 3 to 63 characters long; a non-empty name outside that
      range is reported as invalid. */
  lemma LengthBounds(s: string)
    ensures Validate(Some(s)).Pass? ==> 3 <= |s| <= 63
    ensures s != [] && (|s| < 3 || |s| > 63) ==> Validate(Some(s)) == Fail(InvalidBucketName(s))
  {
  }

  /** Accepted names use only lowercase letters, digits, dots and hyphens. */
  lemma CharacterSet(s: string)
    ensures Validate(Some(s)).Pass? ==>
              forall i | 0 <= i < |s| :: 'a' <= s[i] <= 'z' || '0' <= s[i] <= '9' || s[i] == '.' || s[i] == '-'
  {
  }

  /** A name with a character outside `[a-z0-9.-]` is reported as invalid. */
  lemma ForeignCharacterRejected(s: string, i: nat)
    requires i < |s|
    requires !IsLowerAlnum(s[i]) && !IsSeparator(s[i])
    ensures Validate(Some(s)) == Fail(InvalidBucketName(s))
  {
  }

  /** Accepted names start and end with an alphanumeric, and no two separators
      are adjacent (no "..", "--", ".-" or "-."). */
  lemma Boundaries(s: string)
    requires Validate(Some(s)).Pass?
    ensures IsLowerAlnum(s[0]) && IsLowerAlnum(s[|s| - 1])
    ensures forall i | 0 <= i < |s| - 1 :: !(IsSeparator(s[i]) && IsSeparator(s[i + 1]))
  {
  }

  /** Soundness against the label grammar: an accepted name is a sequence of
      dot-separated labels, each alphanumerics with single interior hyphens,
      and not four all-digit groups. */
  lemma Soundness(s: string)
    requires Validate(Some(s)).Pass?
    ensures AllLabels(Text.Split(s, '.'))
    ensures !FourDigitGroups(s)
  {
    NameIffWellFormed(s);
    NameIffLabels(s);
  }

  /** Completeness against the label grammar: every 3 to 63 character sequence of
      dot-separated labels that is not four all-digit groups is accepted. */
  lemma Completeness(s: string)
    requires 3 <= |s| <= 63
    requires AllLabels(Text.Split(s, '.'))
    requires !FourDigitGroups(s)
    ensures Validate(Some(s)) == Pass
  {
    NameIffLabels(s);
    NameIffWellFormed(s);
  }

  /** Only exactly four digit groups are excluded: a name of digit groups with
      any other number of groups is judged by the other rules alone. */
  lemma OnlyFourGroupsExcluded(s: string)
    requires |Text.Split(s, '.')| != 4
    ensures Validate(Some(s)).Pass? <==> 3 <= |s| <= 63 && WellFormed(s)
  {
  }

  /** Names the pattern rejects: upper case, an underscore, too short. */
  lemma RejectedExamples()
    ensures Validate(Some("InvalidBucketName")) == Fail(InvalidBucketName("InvalidBucketName"))
    ensures Validate(Some("Invalid_BucketName")) == Fail(InvalidBucketName("Invalid_BucketName"))
    ensures Validate(Some("ab")) == Fail(InvalidBucketName("ab"))
  {
    ForeignCharacterRejected("InvalidBucketName", 0);
    ForeignCharacterRejected("Invalid_BucketName", 0);
  }

  /** A dotted IPv4 address is rejected. */
  lemma DottedAddressRejected()
    ensures Validate(Some("192.168.5.4")) == Fail(InvalidBucketName("192.168.5.4"))
  {
    assert DigitRun("4", 0);
    assert DigitRun("5.4", 1);
    assert DigitRun("168.5.4", 2);
    assert DottedQuad("192.168.5.4");
  }

  /** Three digit groups are not an address and are accepted. */
  lemma ThreeDigitGroupsAccepted()
    ensures Validate(Some("192.168.5")) == Pass
  {
    var s := "192.168.5";
    assert MatchesName(s);
    assert !DigitRun("5", 1);
    assert !DigitRun("168.5", 2);
    assert !DottedQuad(s);
  }

  /** A plain hyphenated name is accepted. */
  lemma HyphenatedNameAccepted()
    ensures Validate(Some("my-bucket")) == Pass
  {
    assert NameRest("bucket");
    assert MatchesName("my-bucket");
    assert !DottedQuad("my-bucket");
  }
}

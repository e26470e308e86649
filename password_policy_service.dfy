/**
 * `PasswordPolicyService`: the password rules read from the settings table with their
 * defaults, and the list of requirement sentences shown to users.
 */
module PasswordPolicyService {
  import opened Wrappers
  import opened Text
  import opened Domain
  import opened ConfigurationService

  datatype PasswordPolicyConfiguration = PasswordPolicyConfiguration(
    requireDigit: bool,
    requireLowercase: bool,
    requireUppercase: bool,
    requireNonAlphanumeric: bool,
    requiredLength: int,
    requiredUniqueChars: int)

  const RequireDigitKey := "Security_Password_RequireDigit"
  const RequireLowercaseKey := "Security_Password_RequireLowercase"
  const RequireUppercaseKey := "Security_Password_RequireUppercase"
  const RequireNonAlphanumericKey := "Security_Password_RequireNonAlphanumeric"
  const RequiredLengthKey := "Security_Password_RequiredLength"
  const RequiredUniqueCharsKey := "Security_Password_RequiredUniqueChars"

  /** The policy when no setting is present or readable. */
  const DefaultPolicy := PasswordPolicyConfiguration(true, true, true, false, 8, 1)

  /** `GetPasswordPolicyAsync`: each readable setting, or its default when it is null. */
  function GetPasswordPolicy(t: seq<AppConfiguration>, cipher: Cipher): (p: PasswordPolicyConfiguration)
    ensures GetBool(t, RequireDigitKey, cipher).Some? ==> p.requireDigit == GetBool(t, RequireDigitKey, cipher).value
    ensures GetBool(t, RequireDigitKey, cipher).None? ==> p.requireDigit
    ensures GetBool(t, RequireLowercaseKey, cipher).Some? ==> p.requireLowercase == GetBool(t, RequireLowercaseKey, cipher).value
    ensures GetBool(t, RequireLowercaseKey, cipher).None? ==> p.requireLowercase
    ensures GetBool(t, RequireUppercaseKey, cipher).Some? ==> p.requireUppercase == GetBool(t, RequireUppercaseKey, cipher).value
    ensures GetBool(t, RequireUppercaseKey, cipher).None? ==> p.requireUppercase
    ensures GetBool(t, RequireNonAlphanumericKey, cipher).Some? ==>
      p.requireNonAlphanumeric == GetBool(t, RequireNonAlphanumericKey, cipher).value
    ensures GetBool(t, RequireNonAlphanumericKey, cipher).None? ==> !p.requireNonAlphanumeric
    ensures GetInt(t, RequiredLengthKey, cipher).Some? ==> p.requiredLength == GetInt(t, RequiredLengthKey, cipher).value
    ensures GetInt(t, RequiredLengthKey, cipher).None? ==> p.requiredLength == 8
    ensures GetInt(t, RequiredUniqueCharsKey, cipher).Some? ==> p.requiredUniqueChars == GetInt(t, RequiredUniqueCharsKey, cipher).value
    ensures GetInt(t, RequiredUniqueCharsKey, cipher).None? ==> p.requiredUniqueChars == 1
  {
    PasswordPolicyConfiguration(
      GetBool(t, RequireDigitKey, cipher).GetOr(true),
      GetBool(t, RequireLowercaseKey, cipher).GetOr(true),
      GetBool(t, RequireUppercaseKey, cipher).GetOr(true),
      GetBool(t, RequireNonAlphanumericKey, cipher).GetOr(false),
      GetInt(t, RequiredLengthKey, cipher).GetOr(8),
      GetInt(t, RequiredUniqueCharsKey, cipher).GetOr(1))
  }

  /** Missing or unreadable settings give the defaults. */
  lemma PolicyDefaults(t: seq<AppConfiguration>, cipher: Cipher)
    requires GetBool(t, RequireDigitKey, cipher).None? && GetBool(t, RequireLowercaseKey, cipher).None?
    requires GetBool(t, RequireUppercaseKey, cipher).None? && GetBool(t, RequireNonAlphanumericKey, cipher).None?
    requires GetInt(t, RequiredLengthKey, cipher).None? && GetInt(t, RequiredUniqueCharsKey, cipher).None?
    ensures GetPasswordPolicy(t, cipher) == DefaultPolicy
  {
  }

  // ---------------------------------------------------------------- requirement sentences

  const LowercaseSentence := "Contains at least one lowercase letter (a-z)"
  const UppercaseSentence := "Contains at least one uppercase letter (A-Z)"
  const DigitSentence := "Contains at least one number (0-9)"
  const SpecialSentence := "Contains at least one special character (!@#$%^&* etc.)"

  function LengthSentence(n: int): string {
    "At least " + FormatInt(n) + " characters long"
  }

  function UniqueSentence(n: int): string {
    "Contains at least " + FormatInt(n) + " unique characters"
  }

  /**
   * The place of a sentence in the fixed order length (0), lowercase, uppercase, digit,
   * special (1 to 4), unique characters (5), told apart by the characters where they differ.
   */
  function SentenceRank(s: string): nat {
    if |s| == 0 then 5
    else if s[0] == 'A' then 0
    else if |s| <= 22 || IsDigit(s[18]) || s[18] == '-' then 5
    else if s[22] == 'l' then 1
    else if s[22] == 'u' then 2
    else if s[22] == 'n' then 3
    else if s[22] == 's' then 4
    else 5
  }

  function Flag(b: bool): nat { if b then 1 else 0 }

  /** Each of the six sentences has its own rank. */
  lemma SentenceRanks(n: int, m: int)
    ensures SentenceRank(LowercaseSentence) == 1 && SentenceRank(UppercaseSentence) == 2
    ensures SentenceRank(DigitSentence) == 3 && SentenceRank(SpecialSentence) == 4
    ensures SentenceRank(LengthSentence(n)) == 0
    ensures SentenceRank(UniqueSentence(m)) == 5
  {
    FixedSentenceRanks();
    LengthSentenceRank(n);
    UniqueSentenceRank(m);
  }

  lemma FixedSentenceRanks()
    ensures SentenceRank(LowercaseSentence) == 1 && SentenceRank(UppercaseSentence) == 2
    ensures SentenceRank(DigitSentence) == 3 && SentenceRank(SpecialSentence) == 4
  {
    assert LowercaseSentence[0] == 'C' && LowercaseSentence[18] == 'o' && LowercaseSentence[22] == 'l';
    assert UppercaseSentence[0] == 'C' && UppercaseSentence[18] == 'o' && UppercaseSentence[22] == 'u';
    assert DigitSentence[0] == 'C' && DigitSentence[18] == 'o' && DigitSentence[22] == 'n';
    assert SpecialSentence[0] == 'C' && SpecialSentence[18] == 'o' && SpecialSentence[22] == 's';
  }

  lemma LengthSentenceRank(n: int)
    ensures SentenceRank(LengthSentence(n)) == 0
  {
    assert LengthSentence(n)[0] == 'A';
  }

  lemma UniqueSentenceRank(m: int)
    ensures SentenceRank(UniqueSentence(m)) == 5
  {
    var prefix := "Contains at least ";
    var digits := FormatInt(m);
    assert UniqueSentence(m) == prefix + digits + " unique characters";
    assert |prefix| == 18;
    assert UniqueSentence(m)[18] == digits[0];
  }

  /** The sentence of rank `k`, when the policy asks for it; the empty list otherwise. */
  function Part(p: PasswordPolicyConfiguration, k: nat): seq<string>
    requires k <= 5
  {
    match k
    case 0 => [LengthSentence(p.requiredLength)]
    case 1 => if p.requireLowercase then [LowercaseSentence] else []
    case 2 => if p.requireUppercase then [UppercaseSentence] else []
    case 3 => if p.requireDigit then [DigitSentence] else []
    case 4 => if p.requireNonAlphanumeric then [SpecialSentence] else []
    case _ => if p.requiredUniqueChars > 1 then [UniqueSentence(p.requiredUniqueChars)] else []
  }

  /** Each part holds at most its own sentence. */
  lemma PartRanks(p: PasswordPolicyConfiguration, k: nat)
    requires k <= 5
    ensures |Part(p, k)| <= 1
    ensures forall i :: 0 <= i < |Part(p, k)| ==> SentenceRank(Part(p, k)[i]) == k
  {
    SentenceRanks(p.requiredLength, p.requiredUniqueChars);
    if k == 0 {
      assert Part(p, k) == [LengthSentence(p.requiredLength)];
    } else if k == 5 {
      assert Part(p, k) == [] || Part(p, k) == [UniqueSentence(p.requiredUniqueChars)];
    } else if k == 1 {
      assert Part(p, k) == [] || Part(p, k) == [LowercaseSentence];
    } else if k == 2 {
      assert Part(p, k) == [] || Part(p, k) == [UppercaseSentence];
    } else if k == 3 {
      assert Part(p, k) == [] || Part(p, k) == [DigitSentence];
    } else {
      assert Part(p, k) == [] || Part(p, k) == [SpecialSentence];
    }
  }

  /** What the successive `Add` calls produce for a policy. */
  function Sentences(p: PasswordPolicyConfiguration): seq<string> {
    Part(p, 0) + Part(p, 1) + Part(p, 2) + Part(p, 3) + Part(p, 4) + Part(p, 5)
  }

  /** A string of rank `k` is in the sentence list iff it is in the part of rank `k`. */
  lemma InSentences(p: PasswordPolicyConfiguration, s: string)
    ensures s in Sentences(p) <==> s in Part(p, SentenceRank(s))
  {
    var k := SentenceRank(s);
    forall j | 0 <= j <= 5 && j != k
      ensures s !in Part(p, j)
    {
      PartRanks(p, j);
    }
    if k <= 5 {
      assert Sentences(p) == Part(p, 0) + Part(p, 1) + Part(p, 2) + Part(p, 3) + Part(p, 4) + Part(p, 5);
    }
  }

  predicate Ranked(r: seq<string>) {
    forall i, j :: 0 <= i < j < |r| ==> SentenceRank(r[i]) < SentenceRank(r[j])
  }

  predicate RanksBelow(r: seq<string>, k: nat) {
    forall i :: 0 <= i < |r| ==> SentenceRank(r[i]) < k
  }

  /** Appending the part of rank `k` to a ranked list of lower ranks keeps it ranked. */
  lemma AppendPart(r: seq<string>, p: PasswordPolicyConfiguration, k: nat)
    requires k <= 5 && Ranked(r) && RanksBelow(r, k)
    ensures Ranked(r + Part(p, k)) && RanksBelow(r + Part(p, k), k + 1)
  {
    PartRanks(p, k);
  }

  /** The ranks along the sentence list increase strictly. */
  lemma SentencesRanked(p: PasswordPolicyConfiguration)
    ensures Ranked(Sentences(p))
  {
    AppendPart([], p, 0);
    AppendPart(Part(p, 0), p, 1);
    AppendPart(Part(p, 0) + Part(p, 1), p, 2);
    AppendPart(Part(p, 0) + Part(p, 1) + Part(p, 2), p, 3);
    AppendPart(Part(p, 0) + Part(p, 1) + Part(p, 2) + Part(p, 3), p, 4);
    AppendPart(Part(p, 0) + Part(p, 1) + Part(p, 2) + Part(p, 3) + Part(p, 4), p, 5);
    assert [] + Part(p, 0) == Part(p, 0);
  }

  /** The list has the length sentence first and one more sentence per requirement asked for. */
  lemma SentencesLength(p: PasswordPolicyConfiguration)
    ensures |Sentences(p)| == 1 + Flag(p.requireLowercase) + Flag(p.requireUppercase) + Flag(p.requireDigit)
                              + Flag(p.requireNonAlphanumeric) + Flag(p.requiredUniqueChars > 1)
    ensures Sentences(p)[0] == LengthSentence(p.requiredLength)
  {
  }

  /**
   * The list holds each flag's sentence iff the flag is set and the unique-characters
   * sentence iff more than one unique character is required.
   */
  lemma SentencesMembers(p: PasswordPolicyConfiguration)
    ensures LowercaseSentence in Sentences(p) <==> p.requireLowercase
    ensures UppercaseSentence in Sentences(p) <==> p.requireUppercase
    ensures DigitSentence in Sentences(p) <==> p.requireDigit
    ensures SpecialSentence in Sentences(p) <==> p.requireNonAlphanumeric
    ensures UniqueSentence(p.requiredUniqueChars) in Sentences(p) <==> p.requiredUniqueChars > 1
  {
    SentenceRanks(p.requiredLength, p.requiredUniqueChars);
    CharacterClassMembers(p);
    InSentences(p, UniqueSentence(p.requiredUniqueChars));
  }

  /** The four character-class sentences are listed exactly for the flags that are set. */
  lemma CharacterClassMembers(p: PasswordPolicyConfiguration)
    ensures LowercaseSentence in Sentences(p) <==> p.requireLowercase
    ensures UppercaseSentence in Sentences(p) <==> p.requireUppercase
    ensures DigitSentence in Sentences(p) <==> p.requireDigit
    ensures SpecialSentence in Sentences(p) <==> p.requireNonAlphanumeric
  {
    SentenceRanks(p.requiredLength, p.requiredUniqueChars);
    InSentences(p, LowercaseSentence);
    InSentences(p, UppercaseSentence);
    InSentences(p, DigitSentence);
    InSentences(p, SpecialSentence);
  }

  /** The default policy's list: the length of 8 and the three character classes. */
  lemma DefaultSentences()
    ensures Sentences(DefaultPolicy) == [LengthSentence(8), LowercaseSentence, UppercaseSentence, DigitSentence]
  {
  }

  /**
   * `GetPasswordRequirementsAsync`: the sentence list, built by successive `Add` calls, is
   * `Sentences` of the stored policy (whose content `SentencesLength`,
   * `SentencesMembers` and `SentencesRanked` state).
   */
  method GetPasswordRequirements(t: seq<AppConfiguration>, cipher: Cipher) returns (requirements: seq<string>)
    ensures requirements == Sentences(GetPasswordPolicy(t, cipher))
  {
    var policy := GetPasswordPolicy(t, cipher);
    requirements := RequirementsOf(policy);
  }

  /** The successive `Add` calls of `GetPasswordRequirementsAsync` for a loaded policy. */
  method RequirementsOf(policy: PasswordPolicyConfiguration) returns (requirements: seq<string>)
    ensures requirements == Sentences(policy)
  {
    requirements := [];
    requirements := requirements + [LengthSentence(policy.requiredLength)];
    assert requirements == Part(policy, 0);
    ghost var done := requirements;
    if policy.requireLowercase {
      requirements := requirements + [LowercaseSentence];
    }
    assert requirements == done + Part(policy, 1);
    done := requirements;
    if policy.requireUppercase {
      requirements := requirements + [UppercaseSentence];
    }
    assert requirements == done + Part(policy, 2);
    done := requirements;
    if policy.requireDigit {
      requirements := requirements + [DigitSentence];
    }
    assert requirements == done + Part(policy, 3);
    done := requirements;
    if policy.requireNonAlphanumeric {
      requirements := requirements + [SpecialSentence];
    }
    assert requirements == done + Part(policy, 4);
    done := requirements;
    if policy.requiredUniqueChars > 1 {
      requirements := requirements + [UniqueSentence(policy.requiredUniqueChars)];
    }
    assert requirements == done + Part(policy, 5);
  }
}

/**
 * Validation of the request that edits a national society: the four
 * FluentValidation rules declared on `EditNationalSocietyRequestDto.Validator`.
 */
module NationalSocietyValidation {
  import opened Wrappers

  /** The request body. `name` is `None` when the JSON field is null or missing. */
  datatype EditNationalSocietyRequest = EditNationalSocietyRequest(
    id: int,
    name: Option<string>,
    countryId: int,
    contentLanguageId: int)

  /**
   * One property validator of the rule set, in declaration order. The rule on
   * `Name` chains two validators, `NotEmpty` and `MinimumLength(3)`, and each
   * reports its own failure.
   */
  datatype Check =
    | IdGreaterThanZero
    | NameNotEmpty
    | NameMinimumLength
    | ContentLanguageIdGreaterThanZero
    | CountryIdGreaterThanZero

  /** The checks in the order the validator runs them. */
  const AllChecks: seq<Check> := [IdGreaterThanZero, NameNotEmpty, NameMinimumLength,
                                  ContentLanguageIdGreaterThanZero, CountryIdGreaterThanZero]

  /** The characters .NET's `char.IsWhiteSpace` accepts. */
  predicate IsWhiteSpace(c: char) {
    c == ' ' || ('\t' <= c <= '\r') || c == '\U{85}' || c == '\U{A0}' || c == '\U{1680}'
    || ('\U{2000}' <= c <= '\U{200A}') || c == '\U{2028}' || c == '\U{2029}' || c == '\U{202F}'
    || c == '\U{205F}' || c == '\U{3000}'
  }

  /** FluentValidation's `NotEmpty` on a string: not null, and not made only of white space. */
  predicate NotEmpty(s: Option<string>) {
    s.Some? && exists i :: 0 <= i < |s.value| && !IsWhiteSpace(s.value[i])
  }

  /**
   * .NET's `string.Length`: the number of UTF-16 code units, so a character
   * outside the Basic Multilingual Plane (a surrogate pair) counts twice.
   */
  function Utf16Length(s: string): (n: nat)
    ensures |s| <= n <= 2 * |s|
    ensures (forall i :: 0 <= i < |s| ==> s[i] < '\U{10000}') ==> n == |s|
  {
    if s == [] then 0
    else (if s[0] < '\U{10000}' then 1 else 2) + Utf16Length(s[1..])
  }

  /** FluentValidation's `MinimumLength(n)` on `string.Length`: a null string passes, as length validators skip null. */
  predicate MinimumLength(s: Option<string>, n: nat) {
    s.None? || Utf16Length(s.value) >= n
  }

  /** Whether `r` passes check `c`. */
  predicate Passes(r: EditNationalSocietyRequest, c: Check) {
    match c
    case IdGreaterThanZero => r.id > 0
    case NameNotEmpty => NotEmpty(r.name)
    case NameMinimumLength => MinimumLength(r.name, 3)
    case ContentLanguageIdGreaterThanZero => r.contentLanguageId > 0
    case CountryIdGreaterThanZero => r.countryId > 0
  }

  /** The failing checks among `checks`, in order. */
  function FailingAmong(r: EditNationalSocietyRequest, checks: seq<Check>): (failures: seq<Check>)
    ensures forall c :: c in failures <==> c in checks && !Passes(r, c)
    ensures |failures| <= |checks|
  {
    if checks == [] then []
    else (if Passes(r, checks[0]) then [] else [checks[0]]) + FailingAmong(r, checks[1..])
  }

  /** Runs the validator: the list of failures it reports, empty when the request is valid. */
  function Validate(r: EditNationalSocietyRequest): (failures: seq<Check>)
    ensures forall c :: c in failures <==> !Passes(r, c)
    ensures failures == [] <==>
              r.id > 0 && NotEmpty(r.name) && Utf16Length(r.name.value) >= 3
              && r.contentLanguageId > 0 && r.countryId > 0
  {
    var failures := FailingAmong(r, AllChecks);
    forall c: Check ensures c in AllChecks {
      assert c == AllChecks[0] || c == AllChecks[1] || c == AllChecks[2]
             || c == AllChecks[3] || c == AllChecks[4];
    }
    assert failures == [] <==> forall c :: Passes(r, c) by {
      if failures != [] {
        assert failures[0] in failures;
      }
    }
    assert (forall c :: Passes(r, c)) <==>
             Passes(r, IdGreaterThanZero) && Passes(r, NameNotEmpty) && Passes(r, NameMinimumLength)
             && Passes(r, ContentLanguageIdGreaterThanZero) && Passes(r, CountryIdGreaterThanZero);
    failures
  }

  /** A request is valid when the validator reports no failure. */
  predicate IsValid(r: EditNationalSocietyRequest) {
    Validate(r) == []
  }

  /** Breaking any one rule makes the request invalid, whatever the other fields hold. */
  lemma SingleRuleBreaksValidity(r: EditNationalSocietyRequest)
    requires r.id <= 0 || !NotEmpty(r.name) || (r.name.Some? && Utf16Length(r.name.value) < 3)
             || r.contentLanguageId <= 0 || r.countryId <= 0
    ensures !IsValid(r)
    ensures r.id <= 0 ==> IdGreaterThanZero in Validate(r)
    ensures r.contentLanguageId <= 0 ==> ContentLanguageIdGreaterThanZero in Validate(r)
    ensures r.countryId <= 0 ==> CountryIdGreaterThanZero in Validate(r)
  {
  }

  /** A name of only white space fails `NotEmpty` but may pass `MinimumLength`: two separate reports. */
  lemma BlankNameReportsOnlyNotEmpty()
    ensures Validate(EditNationalSocietyRequest(1, Some("   "), 1, 1)) == [NameNotEmpty]
    ensures Validate(EditNationalSocietyRequest(1, None, 1, 1)) == [NameNotEmpty]
    ensures Validate(EditNationalSocietyRequest(1, Some(""), 1, 1)) == [NameNotEmpty, NameMinimumLength]
  {
    var blank := EditNationalSocietyRequest(1, Some("   "), 1, 1);
    assert !NotEmpty(blank.name);
    var empty := EditNationalSocietyRequest(1, Some(""), 1, 1);
    assert !NotEmpty(empty.name);
  }

  /**
   * Length is counted in UTF-16 code units: two characters outside the Basic
   * Multilingual Plane make a name of length 4, which passes, while two
   * ordinary characters are too short.
   */
  lemma SurrogatePairsCountTwice()
    ensures Utf16Length("\U{1F600}\U{1F600}") == 4
    ensures IsValid(EditNationalSocietyRequest(1, Some("\U{1F600}\U{1F600}"), 1, 1))
    ensures Validate(EditNationalSocietyRequest(1, Some("ab"), 1, 1)) == [NameMinimumLength]
  {
    var emoji := "\U{1F600}\U{1F600}";
    assert emoji[1..][1..] == [];
    assert !IsWhiteSpace(emoji[0]);
    var ab := EditNationalSocietyRequest(1, Some("ab"), 1, 1);
    assert !IsWhiteSpace("ab"[0]);
    assert "ab"[1..][1..] == [];
  }
}

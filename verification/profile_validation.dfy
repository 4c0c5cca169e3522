/**
 * The profile service's sign-up validators (profile-microservice/helper.go).
 *
 * Unlike the auth validators these do not stop at the first failure: each
 * check that fails overwrites the message, so the last failing check wins.
 * The e-mail is mandatory here, since the empty string never matches the
 * pattern.
 */
module ProfileValidation {
  import opened Text
  import opened EmailPattern
  import opened ProfileModel

  const AllFieldsIsRequired := "All fields is required!"
  const AgeMustBeNumber := "Age must be number!"
  const EmailFormat := "Email must be like example@gmail.com!"

  predicate RegularFieldsPresent(u: User) {
    u.username != "" && u.firstName != "" && u.lastName != "" && u.gender != ""
      && u.age != "" && u.city != ""
  }

  predicate BusinessFieldsPresent(u: UserBusiness) {
    u.username != "" && u.website != "" && u.email != "" && u.company != ""
  }

  /** SignUpValidationRegularUser: three checks in turn, each failure overwriting the message. */
  function SignUpValidationRegularUser(user: User): (errText: string)
    ensures errText == "" <==> RegularFieldsPresent(user) && Atoi(user.age).Some? && IsEmailValid(user.email)
    ensures !IsEmailValid(user.email) ==> errText == EmailFormat
    ensures IsEmailValid(user.email) && Atoi(user.age).None? ==> errText == AgeMustBeNumber
    ensures IsEmailValid(user.email) && Atoi(user.age).Some? && !RegularFieldsPresent(user) ==> errText == AllFieldsIsRequired
  {
    var afterFields := if !RegularFieldsPresent(user) then AllFieldsIsRequired else "";
    var afterAge := if Atoi(user.age).None? then AgeMustBeNumber else afterFields;
    if !IsEmailValid(user.email) then EmailFormat else afterAge
  }

  /** SignUpValidationBusinessUser: the e-mail failure overwrites the missing-field one. */
  function SignUpValidationBusinessUser(user: UserBusiness): (errText: string)
    ensures errText == "" <==> BusinessFieldsPresent(user) && IsEmailValid(user.email)
    ensures !IsEmailValid(user.email) ==> errText == EmailFormat
    ensures IsEmailValid(user.email) && !BusinessFieldsPresent(user) ==> errText == AllFieldsIsRequired
  {
    var afterFields := if !BusinessFieldsPresent(user) then AllFieldsIsRequired else "";
    if !IsEmailValid(user.email) then EmailFormat else afterFields
  }

  /** No profile is accepted without an e-mail, whatever else it holds. */
  lemma EmptyEmailAlwaysFails(user: User, business: UserBusiness)
    requires user.email == "" && business.email == ""
    ensures SignUpValidationRegularUser(user) == EmailFormat
    ensures SignUpValidationBusinessUser(business) == EmailFormat
  {
    EmptyRejected();
  }

  /**
   * An empty age is reported as a non-number, never as a missing field,
   * because the age check runs after the field check and Atoi rejects "".
   */
  lemma EmptyAgeIsNotANumber(user: User)
    requires user.age == "" && IsEmailValid(user.email)
    ensures SignUpValidationRegularUser(user) == AgeMustBeNumber
  {
    AtoiRejectsEmpty();
  }

  /** An accepted profile's age is a decimal number in the 64-bit range, and its e-mail has the regex's shape. */
  lemma {:induction false} AcceptedProfileShape(user: User)
    requires SignUpValidationRegularUser(user) == ""
    ensures MinInt64 <= Atoi(user.age).value <= MaxInt64
    ensures MatchesEmailRegex(user.email)
  {
    IsEmailValidMatchesRegex(user.email);
  }

  /** Any age written by Itoa, signed or not, passes the age check. */
  lemma {:induction false} ItoaAgeAccepted(user: User, n: nat)
    requires RegularFieldsPresent(user) && IsEmailValid(user.email)
    requires n <= MaxInt64 && (user.age == Itoa(n) || user.age == "-" + Itoa(n) || user.age == "+" + Itoa(n))
    ensures SignUpValidationRegularUser(user) == ""
  {
    AtoiItoa(n);
  }
}

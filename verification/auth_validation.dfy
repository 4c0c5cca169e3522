/**
 * The auth service's request validators (auth-microservice/validation/validation.go).
 *
 * Each validator runs its checks in a fixed order and returns the message of
 * the first one that fails, or "" (the Go zero string) when all pass.  The
 * password blacklist file is a parameter read as a sequence of lines.  The
 * business validator consults the credential store, given as a snapshot of
 * the user collection.
 */
module AuthValidation {
  import opened Text
  import opened EmailPattern
  import opened AuthModel
  import opened AuthDatabase

  const AllFieldsAreRequired := "All fields are required!"
  const AllFieldsIsRequired := "All fields is required!"
  const UseStrongerPassword := "Use stronger password!"
  const WeakPasswordSignUp := "Minimum eight characters, at least one uppercase letter, one lowercase letter and one number!"
  const WeakPassword := "Minimum eight characters, at least one uppercase letter, one lowercase letter and one number"
  const FirstNameLetters := "First name can contain only letters!"
  const LastNameLetters := "Last name can contain only letters!"
  const CityLetters := "City can contain only letters!"
  const GenderValues := "Gender can only be male or female!"
  const AgeDigits := "Age can only contain digit!"
  const EmailFormat := "Email must be like example@gmail.com!"
  const EmailExists := "Email Exists!"

  predicate HasUpper(s: string) { exists i :: 0 <= i < |s| && IsUpper(s[i]) }
  predicate HasLower(s: string) { exists i :: 0 <= i < |s| && IsLower(s[i]) }
  predicate HasDigit(s: string) { exists i :: 0 <= i < |s| && IsDigit(s[i]) }

  /** The shared password rule: eight characters or more, with an upper-case letter, a lower-case letter and a digit. */
  predicate IsStrongPassword(pw: string) {
    |pw| >= 8 && HasDigit(pw) && HasUpper(pw) && HasLower(pw)
  }

  /** The optional e-mail rule: an e-mail, when given, must match the pattern. */
  predicate EmailAcceptable(email: string) {
    email == "" || IsEmailValid(email)
  }

  /** IsPasswordInBlackList: scans every line of the blacklist; a password equal to a line is refused. */
  method IsPasswordInBlackList(password: string, blacklist: seq<string>) returns (isValid: bool, errorMessage: string)
    ensures isValid <==> password !in blacklist
    ensures errorMessage == if isValid then "" else UseStrongerPassword
  {
    isValid := true;
    errorMessage := "";
    for i := 0 to |blacklist|
      invariant isValid <==> password !in blacklist[..i]
      invariant errorMessage == if isValid then "" else UseStrongerPassword
    {
      if password == blacklist[i] {
        isValid := false;
        errorMessage := UseStrongerPassword;
      }
    }
    assert blacklist[..|blacklist|] == blacklist;
  }

  /** The character scan and the digit match every validator runs on the new password. */
  method MeetsStrengthRule(password: string) returns (ok: bool)
    ensures ok <==> IsStrongPassword(password)
  {
    var hasUpper, hasLower, numeric := false, false, false;
    for i := 0 to |password|
      invariant hasUpper <==> HasUpper(password[..i])
      invariant hasLower <==> HasLower(password[..i])
      invariant numeric <==> HasDigit(password[..i])
    {
      assert password[..i + 1] == password[..i] + [password[i]];
      if IsUpper(password[i]) {
        hasUpper := true;
      }
      if IsLower(password[i]) {
        hasLower := true;
      }
      if IsDigit(password[i]) {
        numeric := true;
      }
    }
    assert password[..|password|] == password;
    ok := !(|password| < 8 || !numeric || !hasUpper || !hasLower);
  }

  /** The "can contain only letters" scan. */
  method OnlyLetters(s: string) returns (ok: bool)
    ensures ok <==> AllLetters(s)
  {
    for i := 0 to |s|
      invariant AllLetters(s[..i])
    {
      if !IsLetter(s[i]) {
        assert !AllLetters(s);
        return false;
      }
      assert s[..i + 1] == s[..i] + [s[i]];
    }
    assert s[..|s|] == s;
    return true;
  }

  // ---------------------------------------------------------- regular user

  predicate RegularFieldsPresent(u: User) {
    u.username != "" && u.password != "" && u.firstName != "" && u.lastName != ""
      && u.gender != "" && u.age != "" && u.city != ""
  }

  predicate GenderAccepted(gender: string) {
    TrimRightNewlines(gender) == "male" || TrimRightNewlines(gender) == "female"
  }

  /** SignUpValidationRegularUser's answer: the first failing check's message, in source order. */
  function RegularUserError(u: User, blacklist: seq<string>): string {
    if !RegularFieldsPresent(u) then AllFieldsAreRequired
    else if u.password in blacklist then UseStrongerPassword
    else if !IsStrongPassword(u.password) then WeakPasswordSignUp
    else if !AllLetters(u.firstName) then FirstNameLetters
    else if !AllLetters(u.lastName) then LastNameLetters
    else if !AllLetters(u.city) then CityLetters
    else if !GenderAccepted(u.gender) then GenderValues
    else if Atoi(u.age).None? then AgeDigits
    else if !EmailAcceptable(u.email) then EmailFormat
    else ""
  }

  method SignUpValidationRegularUser(user: User, blacklist: seq<string>) returns (errText: string)
    ensures errText == RegularUserError(user, blacklist)
  {
    if user.username == "" || user.password == "" || user.firstName == "" || user.lastName == ""
      || user.gender == "" || user.age == "" || user.city == "" {
      return AllFieldsAreRequired;
    }
    var isValid, blacklistText := IsPasswordInBlackList(user.password, blacklist);
    if !isValid {
      return blacklistText;
    }
    var strong := MeetsStrengthRule(user.password);
    if !strong {
      return WeakPasswordSignUp;
    }
    var letters := OnlyLetters(user.firstName);
    if !letters {
      return FirstNameLetters;
    }
    letters := OnlyLetters(user.lastName);
    if !letters {
      return LastNameLetters;
    }
    letters := OnlyLetters(user.city);
    if !letters {
      return CityLetters;
    }
    var gender := TrimRightNewlines(user.gender);
    if gender != "male" && gender != "female" {
      return GenderValues;
    }
    if Atoi(user.age).None? {
      return AgeDigits;
    }
    if user.email != "" && !IsEmailValid(user.email) {
      return EmailFormat;
    }
    return "";
  }

  /** A regular sign-up is accepted exactly when every rule holds. */
  lemma RegularUserAcceptedIff(u: User, blacklist: seq<string>)
    ensures RegularUserError(u, blacklist) == "" <==>
      RegularFieldsPresent(u) && u.password !in blacklist && IsStrongPassword(u.password)
      && AllLetters(u.firstName) && AllLetters(u.lastName) && AllLetters(u.city)
      && GenderAccepted(u.gender) && Atoi(u.age).Some? && EmailAcceptable(u.email)
  {
  }

  /** An accepted regular sign-up has an age that parses to a 64-bit integer and an e-mail, when given, of the regex's form without capitals. */
  lemma {:induction false} RegularUserAcceptedEmail(u: User, blacklist: seq<string>)
    requires RegularUserError(u, blacklist) == ""
    ensures Atoi(u.age).Some? && MinInt64 <= Atoi(u.age).value <= MaxInt64
    ensures u.email != "" ==> MatchesEmailRegex(u.email) && forall k :: 0 <= k < |u.email| ==> !IsUpper(u.email[k])
  {
    if u.email != "" {
      IsEmailValidMatchesRegex(u.email);
      AcceptedHasNoUppercase(u.email);
    }
  }

  /** A blacklisted password is reported as such whatever its strength, and every other rule is only looked at once the password passes. */
  lemma BlacklistBeforeStrength(u: User, blacklist: seq<string>)
    requires RegularFieldsPresent(u) && u.password in blacklist
    ensures RegularUserError(u, blacklist) == UseStrongerPassword
  {
  }

  /** A gender followed by newlines is accepted, as TrimRight strips them. */
  lemma {:induction false} GenderTrailingNewlines(n: nat)
    ensures GenderAccepted("female" + Newlines(n))
  {
    NewlinesTrimmed("female", n);
  }

  function Newlines(n: nat): (s: string)
    ensures |s| == n && forall i :: 0 <= i < n ==> s[i] == '\n'
  {
    if n == 0 then [] else Newlines(n - 1) + ['\n']
  }

  lemma {:induction false} NewlinesTrimmed(s: string, n: nat)
    requires s == [] || s[|s| - 1] != '\n'
    ensures TrimRightNewlines(s + Newlines(n)) == s
  {
    if n > 0 {
      assert s + Newlines(n) == (s + Newlines(n - 1)) + ['\n'];
      NewlinesTrimmed(s, n - 1);
    } else {
      assert s + Newlines(0) == s;
    }
  }

  // --------------------------------------------------------- business user

  predicate BusinessFieldsPresent(u: UserBusiness) {
    u.username != "" && u.website != "" && u.email != "" && u.company != ""
  }

  /** SignUpValidationBusinessUser's answer: the store is consulted before the fields are looked at. */
  function BusinessUserError(users: seq<Auth>, u: UserBusiness, blacklist: seq<string>): string {
    if GetUserByUsername(users, u.username) != ZeroAuth then UsernameExists
    else if IsUserWithEmailExist(users, u.email) != ZeroAuth then EmailExists
    else if !BusinessFieldsPresent(u) then AllFieldsIsRequired
    else if u.password in blacklist then UseStrongerPassword
    else if !IsStrongPassword(u.password) then WeakPasswordSignUp
    else if !EmailAcceptable(u.email) then EmailFormat
    else ""
  }

  method SignUpValidationBusinessUser(users: seq<Auth>, user: UserBusiness, blacklist: seq<string>) returns (errText: string)
    ensures errText == BusinessUserError(users, user, blacklist)
  {
    if GetUserByUsername(users, user.username) != ZeroAuth {
      return UsernameExists;
    }
    if IsUserWithEmailExist(users, user.email) != ZeroAuth {
      return EmailExists;
    }
    if user.username == "" || user.website == "" || user.email == "" || user.company == "" {
      return AllFieldsIsRequired;
    }
    var isValid, blacklistText := IsPasswordInBlackList(user.password, blacklist);
    if !isValid {
      return blacklistText;
    }
    var strong := MeetsStrengthRule(user.password);
    if !strong {
      return WeakPasswordSignUp;
    }
    if user.email != "" && !IsEmailValid(user.email) {
      return EmailFormat;
    }
    return "";
  }

  /**
   * An accepted business sign-up names a username and an e-mail no record in
   * a valid store has, which is what the business saga relies on.
   */
  lemma {:induction false} BusinessUserAcceptedIsFresh(users: seq<Auth>, u: UserBusiness, blacklist: seq<string>)
    requires ValidStore(users)
    requires BusinessUserError(users, u, blacklist) == ""
    ensures FindByUsername(users, u.username) == |users|
    ensures forall k :: 0 <= k < |users| ==> users[k].username != u.username && users[k].email != u.email
    ensures IsEmailValid(u.email) && IsStrongPassword(u.password) && u.password !in blacklist
  {
    UsernameLookup(users, u.username);
  }

  /** A taken username is reported before anything else, even on an otherwise empty request. */
  lemma BusinessTakenUsernameFirst(users: seq<Auth>, u: UserBusiness, blacklist: seq<string>, k: nat)
    requires ValidStore(users) && k < |users| && users[k].username == u.username
    ensures BusinessUserError(users, u, blacklist) == UsernameExists
  {
    UsernameLookup(users, u.username);
  }

  // ------------------------------------------------------ recovery and change

  /** EmailValidation: a missing e-mail passes; a present one must match. */
  function EmailValidation(codeRecovery: CodeRecovery): (r: (bool, string))
    ensures r.0 <==> EmailAcceptable(codeRecovery.email)
    ensures r.1 == if r.0 then "" else EmailFormat
  {
    if codeRecovery.email != "" && !IsEmailValid(codeRecovery.email) then (false, EmailFormat)
    else (true, "")
  }

  function ChangePasswordError(pass: ChangePassword, blacklist: seq<string>): string {
    if pass.newPassword == "" || pass.currentPassword == "" then AllFieldsIsRequired
    else if pass.newPassword in blacklist then UseStrongerPassword
    else if !IsStrongPassword(pass.newPassword) then WeakPassword
    else ""
  }

  method IsChangePasswordValid(pass: ChangePassword, blacklist: seq<string>) returns (isValid: bool, errorMessage: string)
    ensures errorMessage == ChangePasswordError(pass, blacklist)
    ensures isValid <==> errorMessage == ""
  {
    if pass.newPassword == "" || pass.currentPassword == "" {
      return false, AllFieldsIsRequired;
    }
    var notListed, errText := IsPasswordInBlackList(pass.newPassword, blacklist);
    if !notListed {
      return false, errText;
    }
    var strong := MeetsStrengthRule(pass.newPassword);
    if !strong {
      return false, WeakPassword;
    }
    return true, "";
  }

  function RecoveryPasswordError(pass: RecoveryPassword, blacklist: seq<string>): string {
    if pass.newPassword == "" || pass.email == "" || pass.code == "" then AllFieldsIsRequired
    else if pass.newPassword in blacklist then UseStrongerPassword
    else if !IsStrongPassword(pass.newPassword) then WeakPassword
    else if !IsEmailValid(pass.email) then EmailFormat
    else ""
  }

  method IsRecoveryPasswordValid(pass: RecoveryPassword, blacklist: seq<string>) returns (isValid: bool, errorMessage: string)
    ensures errorMessage == RecoveryPasswordError(pass, blacklist)
    ensures isValid <==> errorMessage == ""
  {
    if pass.newPassword == "" || pass.email == "" || pass.code == "" {
      return false, AllFieldsIsRequired;
    }
    var notListed, errText := IsPasswordInBlackList(pass.newPassword, blacklist);
    if !notListed {
      return false, errText;
    }
    var strong := MeetsStrengthRule(pass.newPassword);
    if !strong {
      return false, WeakPassword;
    }
    if pass.email != "" && !IsEmailValid(pass.email) {
      return false, EmailFormat;
    }
    return true, "";
  }

  /**
   * Changing and recovering a password apply the same password rule: for the
   * same new password the two validators agree once their own required
   * fields are present and the recovery e-mail is well formed.
   */
  lemma SamePasswordRule(change: ChangePassword, recovery: RecoveryPassword, blacklist: seq<string>)
    requires change.currentPassword != "" && recovery.email != "" && recovery.code != ""
    requires IsEmailValid(recovery.email) && change.newPassword == recovery.newPassword
    ensures ChangePasswordError(change, blacklist) == RecoveryPasswordError(recovery, blacklist)
    ensures ChangePasswordError(change, blacklist) == "" <==>
      change.newPassword !in blacklist && IsStrongPassword(change.newPassword)
  {
  }

  /** Sign-up and change differ in one character of the weak-password message. */
  lemma WeakMessagesDiffer()
    ensures WeakPasswordSignUp == WeakPassword + "!"
  {
  }
}

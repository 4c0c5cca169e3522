/**
 * The e-mail pattern shared by the auth and profile services:
 *   ^[a-z0-9._%+\-]+@[a-z0-9.\-]+\.[a-z]{2,4}$
 * MatchesEmailRegex reads the pattern declaratively (some split of the
 * string into its four parts); IsEmailValid decides it by locating the
 * first '@' and the last '.'.  The two are proved equivalent.
 */
module EmailPattern {
  import opened Text

  /** [a-z0-9._%+\-] */
  predicate IsLocalChar(c: char) {
    IsLower(c) || IsDigit(c) || c == '.' || c == '_' || c == '%' || c == '+' || c == '-'
  }

  /** [a-z0-9.\-] */
  predicate IsDomainChar(c: char) {
    IsLower(c) || IsDigit(c) || c == '.' || c == '-'
  }

  predicate AllLocal(s: string) { forall i :: 0 <= i < |s| ==> IsLocalChar(s[i]) }
  predicate AllDomain(s: string) { forall i :: 0 <= i < |s| ==> IsDomainChar(s[i]) }
  predicate AllLower(s: string) { forall i :: 0 <= i < |s| ==> IsLower(s[i]) }

  /**
   * The string splits as local "@" domain "." tld at positions at and dot,
   * each part drawn from its character class with the pattern's lengths.
   */
  predicate SplitMatches(s: string, at: nat, dot: nat) {
    && 0 < at && at + 1 < dot && dot < |s|
    && s[at] == '@' && s[dot] == '.'
    && AllLocal(s[..at])
    && AllDomain(s[at + 1..dot])
    && 2 <= |s| - dot - 1 <= 4
    && AllLower(s[dot + 1..])
  }

  ghost predicate MatchesEmailRegex(s: string) {
    exists at: nat, dot: nat :: SplitMatches(s, at, dot)
  }

  /** Position of the first c in s, or |s| when there is none. */
  function IndexOf(s: string, c: char): (i: nat)
    ensures i <= |s|
    ensures i < |s| ==> s[i] == c
    ensures forall j :: 0 <= j < i ==> s[j] != c
  {
    if s == [] then 0
    else if s[0] == c then 0
    else 1 + IndexOf(s[1..], c)
  }

  /** Position of the last c in s, or -1 when there is none. */
  function LastIndexOf(s: string, c: char): (i: int)
    ensures -1 <= i < |s|
    ensures i >= 0 ==> s[i] == c
    ensures forall j :: i < j < |s| ==> s[j] != c
  {
    if s == [] then -1
    else if s[|s| - 1] == c then |s| - 1
    else LastIndexOf(s[..|s| - 1], c)
  }

  /** isEmailValid in both services. */
  function IsEmailValid(s: string): bool {
    var at := IndexOf(s, '@');
    var dot := LastIndexOf(s, '.');
    at < |s| && dot >= 0 && SplitMatches(s, at, dot)
  }

  /** The decision procedure accepts exactly the strings the pattern matches. */
  lemma IsEmailValidMatchesRegex(s: string)
    ensures IsEmailValid(s) <==> MatchesEmailRegex(s)
  {
    if MatchesEmailRegex(s) {
      var at: nat, dot: nat :| SplitMatches(s, at, dot);
      forall j | 0 <= j < at ensures s[j] != '@' {
        assert IsLocalChar(s[..at][j]);
      }
      forall j | dot < j < |s| ensures s[j] != '.' {
        assert IsLower(s[dot + 1..][j - dot - 1]);
      }
      assert IndexOf(s, '@') == at;
      assert LastIndexOf(s, '.') == dot;
    }
  }

  /** No accepted address contains an upper-case letter. */
  lemma AcceptedHasNoUppercase(s: string)
    requires IsEmailValid(s)
    ensures forall k :: 0 <= k < |s| ==> !IsUpper(s[k])
  {
    var at, dot := IndexOf(s, '@'), LastIndexOf(s, '.');
    forall k | 0 <= k < |s| ensures !IsUpper(s[k]) {
      if k < at {
        assert IsLocalChar(s[..at][k]);
      } else if at < k < dot {
        assert IsDomainChar(s[at + 1..dot][k - at - 1]);
      } else if dot < k {
        assert IsLower(s[dot + 1..][k - dot - 1]);
      }
    }
  }

  /** The empty string, and so a missing address, never matches. */
  lemma EmptyRejected()
    ensures !IsEmailValid("")
  {
  }
}

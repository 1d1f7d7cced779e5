/**
 * Field validation of the login form: the username and password validators
 * built on `isEmpty(s, {ignore_whitespace: true})` and `isLength(s, {min})`,
 * the combined `isValidLogin` check and the exact-match credential check.
 *
 * `isEmpty` with `ignore_whitespace` trims the string (removes leading and
 * trailing whitespace as JavaScript's `String.prototype.trim` does) and then
 * asks whether nothing is left. `isLength` measures the UNTRIMMED string.
 */
module LoginValidation {

  /** Minimum length of a valid username (`isLength(username, { min: 5 })`). */
  const MinUsernameLength: nat := 5
  /** Minimum length of a valid password (`isLength(password, { min: 8 })`). */
  const MinPasswordLength: nat := 8

  /** The only credentials the login flow accepts. */
  const AdminUsername: string := "admin"
  const AdminPassword: string := "Pa$$w0rd!"

  /** The payload of a FILL_FORM event: what is typed into the two fields. */
  datatype FillEvent = FillEvent(username: string, password: string)

  /**
   * The characters `trim` removes: the ECMAScript WhiteSpace code points
   * (tab, vertical tab, form feed, space, no-break space, byte order mark and
   * the Unicode space separators) and the LineTerminator code points.
   */
  predicate IsWhitespace(c: char) {
    c == '\t' || c == '\U{000B}' || c == '\U{000C}' || c == ' ' || c == '\U{00A0}' || c == '\U{FEFF}'
    || c == '\n' || c == '\r' || c == '\U{2028}' || c == '\U{2029}'
    || c == '\U{1680}' || ('\U{2000}' <= c <= '\U{200A}')
    || c == '\U{202F}' || c == '\U{205F}' || c == '\U{3000}'
  }

  /** Every character of `s` is whitespace (vacuously true of ""). */
  predicate AllWhitespace(s: string) {
    forall i :: 0 <= i < |s| ==> IsWhitespace(s[i])
  }

  /** How many whitespace characters `s` starts with. */
  function LeadingWhitespace(s: string): (n: nat)
    ensures n <= |s|
  {
    if |s| > 0 && IsWhitespace(s[0]) then LeadingWhitespace(s[1..]) + 1 else 0
  }

  /** How many whitespace characters `s` ends with. */
  function TrailingWhitespace(s: string): (n: nat)
    ensures n <= |s|
  {
    if |s| > 0 && IsWhitespace(s[|s| - 1]) then TrailingWhitespace(s[..|s| - 1]) + 1 else 0
  }

  /** The leading run is all whitespace and is maximal: the next character, if any, is not whitespace. */
  lemma {:induction false} LeadingWhitespaceIsMaximal(s: string)
    ensures AllWhitespace(s[..LeadingWhitespace(s)])
    ensures LeadingWhitespace(s) == |s| || !IsWhitespace(s[LeadingWhitespace(s)])
  {
    if |s| > 0 && IsWhitespace(s[0]) {
      var n := LeadingWhitespace(s[1..]);
      LeadingWhitespaceIsMaximal(s[1..]);
      assert s[..n + 1] == [s[0]] + s[1..][..n];
      assert n < |s[1..]| ==> s[n + 1] == s[1..][n];
    }
  }

  /** The trailing run is all whitespace and is maximal: the character before it, if any, is not whitespace. */
  lemma {:induction false} TrailingWhitespaceIsMaximal(s: string)
    ensures AllWhitespace(s[|s| - TrailingWhitespace(s)..])
    ensures TrailingWhitespace(s) == |s| || !IsWhitespace(s[|s| - TrailingWhitespace(s) - 1])
    ensures |s| > 0 && !IsWhitespace(s[0]) ==> TrailingWhitespace(s) < |s|
  {
    assert TrailingWhitespace(s) == |s| ==> s[|s| - TrailingWhitespace(s)..] == s;
    if |s| > 0 && IsWhitespace(s[|s| - 1]) {
      var n := TrailingWhitespace(s[..|s| - 1]);
      TrailingWhitespaceIsMaximal(s[..|s| - 1]);
      assert s[|s| - (n + 1)..] == s[..|s| - 1][|s| - 1 - n..] + [s[|s| - 1]];
      assert n < |s| - 1 ==> s[|s| - n - 2] == s[..|s| - 1][|s| - 1 - n - 1];
    }
  }

  /** `s` with its leading whitespace removed. */
  function TrimStart(s: string): string {
    s[LeadingWhitespace(s)..]
  }

  /** `s` with its trailing whitespace removed. */
  function TrimEnd(s: string): string {
    s[..|s| - TrailingWhitespace(s)]
  }

  /** `s.trim()`: leading and trailing whitespace removed. */
  function Trim(s: string): string {
    TrimEnd(TrimStart(s))
  }

  /** `isEmpty(s, { ignore_whitespace: true })`: the trimmed string has length 0. */
  predicate IsEmptyIgnoringWhitespace(s: string) {
    |Trim(s)| == 0
  }

  /** `isLength(s, { min })` with no maximum: measured on the string as typed. */
  predicate IsLength(s: string, min: nat) {
    |s| >= min
  }

  /** `isValidUsername`: not blank and at least 5 characters long. */
  predicate IsValidUsername(username: string) {
    !IsEmptyIgnoringWhitespace(username) && IsLength(username, MinUsernameLength)
  }

  /** `isValidPassword`: not blank and at least 8 characters long. */
  predicate IsValidPassword(password: string) {
    !IsEmptyIgnoringWhitespace(password) && IsLength(password, MinPasswordLength)
  }

  /** `isValidLogin`: both fields are individually valid. */
  predicate IsValidLogin(e: FillEvent) {
    IsValidUsername(e.username) && IsValidPassword(e.password)
  }

  /** `areValidCredentials`: an exact match against the admin credentials. */
  predicate AreValidCredentials(e: FillEvent) {
    e.username == AdminUsername && e.password == AdminPassword
  }

  /** A string is empty after trimming exactly when every one of its characters is whitespace. */
  lemma {:induction false} TrimEmptyIffAllWhitespace(s: string)
    ensures IsEmptyIgnoringWhitespace(s) <==> AllWhitespace(s)
  {
    var k := LeadingWhitespace(s);
    var t := s[k..];
    var m := TrailingWhitespace(t);
    LeadingWhitespaceIsMaximal(s);
    TrailingWhitespaceIsMaximal(t);
    if k < |s| {
      // t starts with the non-whitespace s[k], which trimming the end keeps.
      assert t[0] == s[k] && !IsWhitespace(t[0]);
      assert |Trim(s)| == |t| - m > 0;
      assert !AllWhitespace(s);
    } else {
      assert s[..k] == s;
      assert |Trim(s)| == 0;
    }
  }

  /** The username validator, stated without trimming: some character is not whitespace and there are at least 5. */
  lemma UsernameValidity(username: string)
    ensures IsValidUsername(username) <==>
              (exists i :: 0 <= i < |username| && !IsWhitespace(username[i])) && |username| >= 5
  {
    TrimEmptyIffAllWhitespace(username);
  }

  /** The password validator, stated without trimming: some character is not whitespace and there are at least 8. */
  lemma PasswordValidity(password: string)
    ensures IsValidPassword(password) <==>
              (exists i :: 0 <= i < |password| && !IsWhitespace(password[i])) && |password| >= 8
  {
    TrimEmptyIffAllWhitespace(password);
  }

  /** The admin credentials pass both field validators (lengths 5 and 9). */
  lemma CredentialsAreValidLogin(e: FillEvent)
    ensures AreValidCredentials(e) ==> IsValidLogin(e)
  {
    if AreValidCredentials(e) {
      assert !IsWhitespace(e.username[0]);
      assert !IsWhitespace(e.password[0]);
      UsernameValidity(e.username);
      PasswordValidity(e.password);
    }
  }

  /** Length is measured before trimming: four spaces and one letter make a valid username. */
  lemma PaddedUsernameIsValid(c: char)
    requires !IsWhitespace(c)
    ensures IsValidUsername("    " + [c])
    ensures |Trim("    " + [c])| == 1
  {
    var u := "    " + [c];
    assert !IsWhitespace(u[4]);
    UsernameValidity(u);
    LeadingWhitespaceIsMaximal(u);
    var n := LeadingWhitespace(u);
    assert n < 4 ==> IsWhitespace(u[n]);
    assert TrimStart(u) == [c];
  }

  /** A username of fewer than five characters is invalid, whatever it contains ('user' has four). */
  lemma ShortUsernameIsInvalid(username: string)
    requires |username| < MinUsernameLength
    ensures !IsValidUsername(username)
  {
  }

  /** A whitespace-only field is empty for `isEmpty(…, ignore_whitespace)`, however long it is. */
  lemma BlankFieldIsEmpty(s: string)
    requires AllWhitespace(s)
    ensures !IsValidUsername(s) && !IsValidPassword(s)
  {
    TrimEmptyIffAllWhitespace(s);
  }
}

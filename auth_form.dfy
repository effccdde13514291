/**
 * src/components/admin/AuthForm.tsx: the password-strength checks shown
 * under the sign-up form and the guard that refuses a weak password.
 */
module AuthForm {

  /** The character classes the five regular expressions test for. */
  datatype CharClass = Upper | Lower | Digit | Special

  predicate InClass(c: char, k: CharClass) {
    match k
    case Upper => 'A' <= c <= 'Z'
    case Lower => 'a' <= c <= 'z'
    case Digit => '0' <= c <= '9'
    case Special => !('A' <= c <= 'Z' || 'a' <= c <= 'z' || '0' <= c <= '9')
  }

  /** `/[...]/.test(s)` for a one-character class: some character of `s` is in the class. */
  function Test(s: string, k: CharClass): (found: bool)
    ensures found <==> exists i :: 0 <= i < |s| && InClass(s[i], k)
  {
    if s == [] then false
    else if InClass(s[0], k) then true
    else
      var rest := Test(s[1..], k);
      assert forall i :: 1 <= i < |s| ==> s[i] == s[1..][i - 1];
      rest
  }

  /** `s.length`: code points above U+FFFF take two UTF-16 code units. */
  function Utf16Length(s: string): (n: nat)
    ensures |s| <= n <= 2 * |s|
  {
    if s == [] then 0 else (if s[0] as int >= 0x1_0000 then 2 else 1) + Utf16Length(s[1..])
  }

  datatype PasswordChecks = PasswordChecks(length: bool, uppercase: bool, lowercase: bool, number: bool, special: bool)

  /** `validatePassword`. */
  function ValidatePassword(password: string): (checks: PasswordChecks)
    ensures checks.length <==> Utf16Length(password) >= 8
    ensures checks.uppercase <==> exists i :: 0 <= i < |password| && 'A' <= password[i] <= 'Z'
    ensures checks.lowercase <==> exists i :: 0 <= i < |password| && 'a' <= password[i] <= 'z'
    ensures checks.number <==> exists i :: 0 <= i < |password| && '0' <= password[i] <= '9'
    ensures checks.special <==> exists i :: 0 <= i < |password| && InClass(password[i], Special)
  {
    assert forall i :: 0 <= i < |password| ==> (InClass(password[i], Upper) <==> 'A' <= password[i] <= 'Z');
    assert forall i :: 0 <= i < |password| ==> (InClass(password[i], Lower) <==> 'a' <= password[i] <= 'z');
    assert forall i :: 0 <= i < |password| ==> (InClass(password[i], Digit) <==> '0' <= password[i] <= '9');
    PasswordChecks(Utf16Length(password) >= 8, Test(password, Upper), Test(password, Lower),
      Test(password, Digit), Test(password, Special))
  }

  /** `Object.values(checks)`, in the record's key order. */
  function CheckValues(checks: PasswordChecks): seq<bool> {
    [checks.length, checks.uppercase, checks.lowercase, checks.number, checks.special]
  }

  /** `array.every(check => check)`. */
  function Every(values: seq<bool>): (all: bool)
    ensures all <==> forall i :: 0 <= i < |values| ==> values[i]
  {
    if values == [] then true
    else
      assert forall i :: 1 <= i < |values| ==> values[i] == values[1..][i - 1];
      values[0] && Every(values[1..])
  }

  /** `isPasswordValid`: all five checks hold. */
  function IsPasswordValid(password: string): (ok: bool)
    ensures ok <==> var c := ValidatePassword(password);
      c.length && c.uppercase && c.lowercase && c.number && c.special
  {
    var values := CheckValues(ValidatePassword(password));
    assert forall i :: 0 <= i < 5 ==> values[i] == [values[0], values[1], values[2], values[3], values[4]][i];
    Every(values)
  }

  /** Any character outside A–Z, a–z and 0–9 counts as special, white space and Arabic letters included. */
  lemma SpecialIsAnyOtherCharacter(password: string, i: nat)
    requires i < |password| && (password[i] == ' ' || '\U{0600}' <= password[i] <= '\U{06FF}')
    ensures ValidatePassword(password).special
  {
  }

  /** A password of eight ASCII characters covering the four classes passes. */
  lemma StrongExample()
    ensures IsPasswordValid("Abcdef1!")
  {
    var p := "Abcdef1!";
    assert 'A' <= p[0] <= 'Z' && 'a' <= p[1] <= 'z' && '0' <= p[6] <= '9' && InClass(p[7], Special);
  }

  /** Without a capital letter the password is weak, however long. */
  lemma NoCapitalIsWeak(password: string)
    requires forall i :: 0 <= i < |password| ==> !('A' <= password[i] <= 'Z')
    ensures !IsPasswordValid(password)
  {
  }

  datatype SignUpOutcome = WeakPassword | SignUpFailed | SignedUp

  /** The sign-up form's fields. */
  class SignUpForm {
    var email: string
    var password: string
    var loading: bool

    constructor ()
      ensures email == "" && password == "" && !loading
    {
      email := "";
      password := "";
      loading := false;
    }

    /**
     * `handleSignUp`: a weak password is refused before the sign-up call and
     * nothing changes; otherwise `signUpError` is whether the call reported
     * an error, and a successful sign-up clears the e-mail and password.
     */
    method HandleSignUp(signUpError: bool) returns (outcome: SignUpOutcome)
      modifies this
      ensures !IsPasswordValid(old(password)) ==>
                (outcome == WeakPassword && email == old(email) && password == old(password) && loading == old(loading))
      ensures IsPasswordValid(old(password)) ==> !loading
      ensures IsPasswordValid(old(password)) && signUpError ==>
                (outcome == SignUpFailed && email == old(email) && password == old(password))
      ensures IsPasswordValid(old(password)) && !signUpError ==>
                (outcome == SignedUp && email == "" && password == "")
    {
      if !IsPasswordValid(password) {
        return WeakPassword;
      }
      loading := true;
      if signUpError {
        outcome := SignUpFailed;
      } else {
        outcome := SignedUp;
        email := "";
        password := "";
      }
      loading := false;
    }
  }
}

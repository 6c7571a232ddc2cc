/** The string validators of backend/lib/validators.py: email format, phone number and
    password strength. Each returns its input on success. Character classes are the ASCII
    ones the patterns name. */
module Validators {
  import opened Wrappers
  import opened Text

  datatype ValidatorError =
    | InvalidEmail
    | InvalidPhone
    | PasswordTooShort
    | PasswordNoLetter
    | PasswordNoNumber

  /** The smallest and largest number of digits a phone number may have, and the shortest
      password. */
  const MinPhoneDigits: int := 10
  const MaxPhoneDigits: int := 15
  const MinPasswordLength: int := 8

  predicate Letter(c: char) {
    'a' <= c <= 'z' || 'A' <= c <= 'Z'
  }

  predicate Digit(c: char) {
    '0' <= c <= '9'
  }

  /** `[a-zA-Z0-9._%+-]`, the characters of the part before '@'. */
  predicate LocalChar(c: char) {
    Letter(c) || Digit(c) || c == '.' || c == '_' || c == '%' || c == '+' || c == '-'
  }

  /** `[a-zA-Z0-9.-]`, the characters of the domain. */
  predicate DomainChar(c: char) {
    Letter(c) || Digit(c) || c == '.' || c == '-'
  }

  predicate AllLocal(s: string) {
    forall k | 0 <= k < |s| :: LocalChar(s[k])
  }

  predicate AllDomain(s: string) {
    forall k | 0 <= k < |s| :: DomainChar(s[k])
  }

  predicate AllLetters(s: string) {
    forall k | 0 <= k < |s| :: Letter(s[k])
  }

  predicate AllDigits(s: string) {
    forall k | 0 <= k < |s| :: Digit(s[k])
  }

  // ----- email -----

  /** A domain `[a-zA-Z0-9.-]+\.[a-zA-Z]{2,}` split at the dot `p`. */
  predicate DomainAt(d: string, p: int) {
    && 1 <= p < |d|
    && d[p] == '.'
    && AllDomain(d[..p])
    && |d| - (p + 1) >= 2
    && AllLetters(d[p + 1..])
  }

  /** An address `local@domain` split at the '@' at `i` and the dot at `i + 1 + p`. */
  predicate EmailAt(s: string, i: int, p: int) {
    && 1 <= i < |s|
    && s[i] == '@'
    && AllLocal(s[..i])
    && DomainAt(s[i + 1..], p)
  }

  /** The whole string matches the email pattern: there is some way to split it. */
  predicate EmailShape(s: string) {
    exists i, p | 0 <= i < |s| && 0 <= p < |s| :: EmailAt(s, i, p)
  }

  /** The index of the last `c` in `s`. */
  function LastIndex(s: string, c: char): (r: Option<nat>)
    ensures r.Some? ==> r.value < |s| && s[r.value] == c && forall k | r.value < k < |s| :: s[k] != c
    ensures r.None? ==> forall k | 0 <= k < |s| :: s[k] != c
  {
    if s == [] then None
    else if s[|s| - 1] == c then Some(|s| - 1)
    else LastIndex(s[..|s| - 1], c)
  }

  /** A direct reading of the pattern: the local part runs to the first '@', and the top-level
      domain starts after the last dot of the rest. */
  predicate CheckEmail(s: string) {
    match FirstIndex(s, '@')
    case None => false
    case Some(i) =>
      var d := s[i + 1..];
      match LastIndex(d, '.')
      case None => false
      case Some(p) => i >= 1 && AllLocal(s[..i]) && DomainAt(d, p)
  }

  /** In a matching address the '@' that ends the local part is the first one. */
  lemma FirstAt(s: string, i: int, p: int)
    requires EmailAt(s, i, p)
    ensures FirstIndex(s, '@') == Some(i)
  {
    assert forall k | 0 <= k < i :: s[k] == s[..i][k];
  }

  /** In a matching domain the dot before the top-level domain is the last one. */
  lemma LastDot(d: string, p: int)
    requires DomainAt(d, p)
    ensures LastIndex(d, '.') == Some(p)
  {
    assert forall k | p < k < |d| :: d[k] == d[p + 1..][k - p - 1];
  }

  /** The direct reading accepts exactly the strings the pattern matches. */
  lemma CheckEmailIsShape(s: string)
    ensures CheckEmail(s) <==> EmailShape(s)
  {
    if CheckEmail(s) {
      var i := FirstIndex(s, '@').value;
      var p := LastIndex(s[i + 1..], '.').value;
      assert EmailAt(s, i, p);
    }
    if EmailShape(s) {
      var i, p :| 0 <= i < |s| && 0 <= p < |s| && EmailAt(s, i, p);
      FirstAt(s, i, p);
      LastDot(s[i + 1..], p);
    }
  }

  /** `re.match` with a final `$`, which also matches just before a trailing newline. */
  predicate EmailMatches(email: string) {
    EmailShape(email) || (email != [] && email[|email| - 1] == '\n' && EmailShape(email[..|email| - 1]))
  }

  /** `validate_email` as written: the address is returned unchanged when the pattern matches,
      including one with a trailing newline. */
  function ValidateEmail(email: string): (r: Result<string, ValidatorError>)
    ensures r.Success? <==> EmailMatches(email)
    ensures r.Success? ==> r.value == email
    ensures r.Failure? ==> r.error == InvalidEmail
  {
    if EmailMatches(email) then Success(email) else Failure(InvalidEmail)
  }

  /** The check the pattern is meant to make: the whole string is an address. */
  function ValidateEmailStrict(email: string): (r: Result<string, ValidatorError>)
    ensures r.Success? <==> CheckEmail(email)
    ensures r.Success? ==> r.value == email && forall k | 0 <= k < |email| :: email[k] != '\n'
    ensures r.Failure? ==> r.error == InvalidEmail
  {
    CheckEmailIsShape(email);
    if CheckEmail(email) then
      assert forall k | 0 <= k < |email| :: email[k] != '\n' by {
        var i, p :| 0 <= i < |email| && 0 <= p < |email| && EmailAt(email, i, p);
        forall k | 0 <= k < |email| ensures email[k] != '\n' {
          if k < i {
            assert email[k] == email[..i][k];
          } else if k > i {
            assert email[k] == email[i + 1..][k - i - 1];
            var d := email[i + 1..];
            if k - i - 1 < p {
              assert d[k - i - 1] == d[..p][k - i - 1];
            } else if k - i - 1 > p {
              assert d[k - i - 1] == d[p + 1..][k - i - 1 - p - 1];
            }
          }
        }
      }
      Success(email)
    else Failure(InvalidEmail)
  }

  /** The written check lets an address with a trailing newline through; the strict one does not. */
  lemma EmailTrailingNewlineAccepted()
    ensures ValidateEmail("a@b.co\n") == Success("a@b.co\n")
    ensures ValidateEmailStrict("a@b.co\n") == Failure(InvalidEmail)
  {
    var s := "a@b.co";
    assert EmailAt(s, 1, 1) by {
      assert s[..1] == "a";
      assert s[2..] == "b.co";
      assert s[2..][..1] == "b";
      assert s[2..][2..] == "co";
    }
    assert "a@b.co\n"[..6] == s;
    var t := "a@b.co\n";
    assert LastIndex(t[2..], '.') == Some(1) by {
      assert t[2..] == "b.co\n";
      assert t[2..][..4] == "b.co";
      assert t[2..][..4][..3] == "b.c";
      assert t[2..][..4][..3][..2] == "b.";
    }
    assert t[2..][2..] == "co\n";
    assert !Letter(t[2..][2..][2]);
    assert FirstIndex(t, '@') == Some(1);
    assert !CheckEmail(t);
  }

  /** Re-validating an accepted address accepts it again. */
  lemma ValidateEmailStable(email: string)
    requires ValidateEmail(email).Success?
    ensures ValidateEmail(ValidateEmail(email).value) == ValidateEmail(email)
  {
  }

  // ----- phone -----

  /** `[\s\-\(\)]`: whitespace, '-', '(' and ')'. */
  predicate Separator(c: char) {
    Space(c) || c == '-' || c == '(' || c == ')'
  }

  /** `re.sub(r'[\s\-\(\)]', '', phone)`: the characters that are not separators, in order. */
  function Clean(s: string): (r: string)
    ensures |r| <= |s|
    ensures forall k | 0 <= k < |r| :: !Separator(r[k])
    ensures (forall k | 0 <= k < |s| :: !Separator(s[k])) ==> r == s
  {
    if s == [] then []
    else if Separator(s[0]) then Clean(s[1..])
    else [s[0]] + Clean(s[1..])
  }

  /** Cleaning works piece by piece: `Clean(a + b) == Clean(a) + Clean(b)`. */
  lemma {:induction false} CleanAppend(a: string, b: string)
    ensures Clean(a + b) == Clean(a) + Clean(b)
  {
    if a == [] {
      assert a + b == b;
    } else {
      assert (a + b)[1..] == a[1..] + b;
      assert (a + b)[0] == a[0];
      CleanAppend(a[1..], b);
    }
  }

  /** The digits a phone number keeps after cleaning: a digit survives cleaning and a separator
      does not, so the count only depends on the non-separators. */
  lemma {:induction false} CleanKeeps(s: string, c: char)
    ensures !Separator(c) ==> multiset(Clean(s))[c] == multiset(s)[c]
    ensures Separator(c) ==> multiset(Clean(s))[c] == 0
  {
    if s != [] {
      CleanKeeps(s[1..], c);
      assert s == [s[0]] + s[1..];
    }
  }

  /** The digit test and length bounds on the cleaned number (`isdigit` is false on ""). */
  predicate PhoneOk(cleaned: string) {
    cleaned != [] && AllDigits(cleaned) && MinPhoneDigits <= |cleaned| <= MaxPhoneDigits
  }

  /** `validate_phone`: accepted iff the cleaned number is 10 to 15 digits; the number is
      returned as given, separators included. */
  function ValidatePhone(phone: string): (r: Result<string, ValidatorError>)
    ensures r.Success? <==> AllDigits(Clean(phone)) && MinPhoneDigits <= |Clean(phone)| <= MaxPhoneDigits
    ensures r.Success? ==> r.value == phone
    ensures r.Failure? ==> r.error == InvalidPhone
  {
    if !PhoneOk(Clean(phone)) then Failure(InvalidPhone) else Success(phone)
  }

  /** Inserting a separator anywhere in a phone number changes neither whether it is accepted
      nor the digits checked; the number returned is the one given, separator included. */
  lemma PhoneIgnoresSeparator(a: string, c: char, b: string)
    requires Separator(c)
    ensures Clean(a + [c] + b) == Clean(a + b)
    ensures ValidatePhone(a + [c] + b).Success? <==> ValidatePhone(a + b).Success?
    ensures ValidatePhone(a + [c] + b).Success? ==> ValidatePhone(a + [c] + b).value == a + [c] + b
  {
    assert a + [c] + b == a + ([c] + b);
    CleanAppend(a, [c] + b);
    CleanAppend([c], b);
    CleanAppend(a, b);
    assert [c][1..] == [];
  }

  // ----- password -----

  predicate HasLetter(s: string) {
    exists k | 0 <= k < |s| :: Letter(s[k])
  }

  predicate HasDigit(s: string) {
    exists k | 0 <= k < |s| :: Digit(s[k])
  }

  /** `validate_password_strength`: length first, then a letter, then a digit; the password is
      returned unchanged when all three hold. */
  function ValidatePassword(password: string): (r: Result<string, ValidatorError>)
    ensures r.Success? <==> |password| >= MinPasswordLength && HasLetter(password) && HasDigit(password)
    ensures r.Success? ==> r.value == password
    ensures |password| < MinPasswordLength ==> r == Failure(PasswordTooShort)
    ensures |password| >= MinPasswordLength && !HasLetter(password) ==> r == Failure(PasswordNoLetter)
    ensures |password| >= MinPasswordLength && HasLetter(password) && !HasDigit(password) ==> r == Failure(PasswordNoNumber)
  {
    if |password| < MinPasswordLength then Failure(PasswordTooShort)
    else if !HasLetter(password) then Failure(PasswordNoLetter)
    else if !HasDigit(password) then Failure(PasswordNoNumber)
    else Success(password)
  }
}

/**
 * The client-side check in the Register and Login pages' `handleSubmit`:
 * the email must match `^[^\s@]+@[^\s@]+\.[^\s@]+$`, then the password must
 * have at least 6 characters; only then is the request posted.
 */
module CredentialsForm {
  import opened Strings

  /** JavaScript's `\s`: the ECMAScript white-space and line-terminator code points. */
  predicate IsSpace(c: char)
  {
    var n := c as int;
    || 9 <= n <= 13 || n == 32 || n == 0xA0 || n == 0x1680
    || 0x2000 <= n <= 0x200A || n == 0x2028 || n == 0x2029
    || n == 0x202F || n == 0x205F || n == 0x3000 || n == 0xFEFF
  }

  /** The class `[^\s@]`. */
  predicate Plain(c: char)
  {
    !IsSpace(c) && c != '@'
  }

  predicate AllPlain(s: string)
  {
    forall k | 0 <= k < |s| :: Plain(s[k])
  }

  /** The pattern read declaratively: `@` at `i` and `.` at `j` cut the string into
      three non-empty runs of `[^\s@]`. */
  ghost predicate MatchesAt(s: string, i: int, j: int)
  {
    && 0 < i && i + 1 < j && j + 1 < |s|
    && s[i] == '@' && s[j] == '.'
    && AllPlain(s[..i]) && AllPlain(s[i + 1..j]) && AllPlain(s[j + 1..])
  }

  ghost predicate MatchesPattern(s: string)
  {
    exists i, j :: MatchesAt(s, i, j)
  }

  /** The test as a scan: the first `@` is not at the start, nothing else is
      white space or `@`, and the part after `@` has a `.` strictly inside it. */
  function IsValidEmail(s: string): bool
  {
    var at := IndexOf(s, '@');
    && 0 < at < |s|
    && AllPlain(s[..at])
    && AllPlain(s[at + 1..])
    && |s[at + 1..]| >= 3
    && Includes(s[at + 2..|s| - 1], ".")
  }

  /** The scan accepts exactly the strings the pattern matches. */
  lemma EmailIff(s: string)
    ensures IsValidEmail(s) <==> MatchesPattern(s)
  {
    var at := IndexOf(s, '@');
    if IsValidEmail(s) {
      var inner := s[at + 2..|s| - 1];
      IncludesIff(inner, ".");
      var k :| OccursAt(inner, ".", k);
      var j := at + 2 + k;
      assert inner[k] == '.' && s[j] == inner[k];
      assert s[at + 1..j] == s[at + 1..][..j - at - 1];
      assert s[j + 1..] == s[at + 1..][j - at..];
      assert MatchesAt(s, at, j);
    }
    if MatchesPattern(s) {
      var i, j :| MatchesAt(s, i, j);
      forall k | 0 <= k < i
        ensures s[k] != '@'
      {
        assert s[k] == s[..i][k];
      }
      assert at == i;
      var d := s[i + 1..];
      assert d == s[i + 1..j] + "." + s[j + 1..];
      assert AllPlain(d);
      var inner := s[i + 2..|s| - 1];
      assert OccursAt(inner, ".", j - i - 2);
      IncludesIff(inner, ".");
    }
  }

  /** An accepted email has exactly one `@`, no white space, and a non-empty local part. */
  lemma AcceptedEmailShape(s: string)
    requires IsValidEmail(s)
    ensures var at := IndexOf(s, '@');
      && 0 < at < |s|
      && (forall k :: 0 <= k < |s| ==> (s[k] == '@' <==> k == at))
      && (forall k :: 0 <= k < |s| ==> !IsSpace(s[k]))
  {
    var at := IndexOf(s, '@');
    forall k | 0 <= k < |s| && k != at
      ensures Plain(s[k])
    {
      if k < at {
        assert s[k] == s[..at][k];
      } else {
        assert s[k] == s[at + 1..][k - at - 1];
      }
    }
  }

  const EmailInvalidMessage := "Email invalid."
  const PasswordTooShortMessage := "Parola trebuie sa aiba minim 6 caractere."

  /** The outcome of `handleSubmit`: an error shown on the form, or the request posted. */
  datatype Submission<T> = ShowError(message: string) | Post(body: T)

  function CheckCredentials<T>(email: string, password: string, body: T): Submission<T>
  {
    if !IsValidEmail(email) then ShowError(EmailInvalidMessage)
    else if |password| < 6 then ShowError(PasswordTooShortMessage)
    else Post(body)
  }

  datatype RegisterForm = RegisterForm(name: string, email: string, password: string)

  datatype LoginForm = LoginForm(email: string, password: string)

  /** Register page: posts the whole form to `/api/auth/register` only when both checks pass;
      the email message wins over the password message. */
  function RegisterSubmit(form: RegisterForm): (r: Submission<RegisterForm>)
    ensures r.Post? <==> MatchesPattern(form.email) && |form.password| >= 6
    ensures r.Post? ==> r.body == form
    ensures !MatchesPattern(form.email) ==> r == ShowError(EmailInvalidMessage)
    ensures MatchesPattern(form.email) && |form.password| < 6 ==> r == ShowError(PasswordTooShortMessage)
  {
    EmailIff(form.email);
    CheckCredentials(form.email, form.password, form)
  }

  /** Login page: the same two checks, in the same order, before posting to `/api/auth/login`. */
  function LoginSubmit(form: LoginForm): (r: Submission<LoginForm>)
    ensures r.Post? <==> MatchesPattern(form.email) && |form.password| >= 6
    ensures r.Post? ==> r.body == form
    ensures !MatchesPattern(form.email) ==> r == ShowError(EmailInvalidMessage)
    ensures MatchesPattern(form.email) && |form.password| < 6 ==> r == ShowError(PasswordTooShortMessage)
  {
    EmailIff(form.email);
    CheckCredentials(form.email, form.password, form)
  }
}

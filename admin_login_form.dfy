/** The client-side admin login form: `handleSubmit` validates the email and
    the password length, then accepts only one hard-coded credential pair,
    updating the `isLoading` and `error` state as it goes. */
module AdminLoginForm {
  import opened Common

  const DashboardPath := "/admin/dashboard"
  const DemoEmail := "admin@projectvault.edu"
  const DemoPassword := "admin1234"
  const MinPasswordLength := 8

  const InvalidEmailError := "Please enter a valid admin email"
  const ShortPasswordError := "Password must be at least 8 characters"
  const RefusedError := "Invalid admin credentials"

  /** One state-setter call or navigation made by the handler. */
  datatype Update = SetLoading(loading: bool) | SetError(message: string) | Navigate(path: string)

  /** How a submission ends. */
  datatype Verdict = InvalidEmail | ShortPassword | Accepted | Refused

  predicate LooksLikeEmail(email: string) {
    '@' in email && '.' in email
  }

  /** The decision `handleSubmit` takes on a pair. */
  function Check(email: string, password: string): (v: Verdict)
    // the email test comes first
    ensures v == InvalidEmail <==> !LooksLikeEmail(email)
    // `password.length` counts UTF-16 code units
    ensures v == ShortPassword <==> LooksLikeEmail(email) && Utf16Length(password) < 8
    // only the one hard-coded pair is accepted
    ensures v == Accepted <==> email == "admin@projectvault.edu" && password == "admin1234"
  {
    if !LooksLikeEmail(email) then InvalidEmail
    else if Utf16Length(password) < MinPasswordLength then ShortPassword
    else if email == DemoEmail && password == DemoPassword then Accepted
    else Refused
  }

  /** Every other well-formed pair with a long enough password is refused. */
  lemma RefusedExactly(email: string, password: string)
    ensures Check(email, password) == Refused <==>
      LooksLikeEmail(email) && Utf16Length(password) >= 8
      && !(email == "admin@projectvault.edu" && password == "admin1234")
  {
  }

  /** The calls `handleSubmit` makes, in order, for a verdict. */
  function SubmitTrace(v: Verdict): (t: seq<Update>)
    ensures |t| == 4 && t[0] == SetLoading(true) && t[1] == SetError("") && t[3] == SetLoading(false)
  {
    var middle := match v
      case InvalidEmail => SetError(InvalidEmailError)
      case ShortPassword => SetError(ShortPasswordError)
      case Accepted => Navigate(DashboardPath)
      case Refused => SetError(RefusedError);
    [SetLoading(true), SetError(""), middle, SetLoading(false)]
  }

  /** The error shown once the handler has finished. */
  function ErrorAfter(v: Verdict): (e: string)
    ensures e == "" <==> v == Accepted
  {
    match v
    case InvalidEmail => InvalidEmailError
    case ShortPassword => ShortPasswordError
    case Accepted => ""
    case Refused => RefusedError
  }

  /** The dashboard is reached exactly for the hard-coded pair. */
  lemma OnlyDemoPairNavigates(email: string, password: string)
    ensures Navigate("/admin/dashboard") in SubmitTrace(Check(email, password))
        <==> email == "admin@projectvault.edu" && password == "admin1234"
    ensures forall p :: Navigate(p) in SubmitTrace(Check(email, password)) ==> p == "/admin/dashboard"
  {
  }

  /** Four emoji are four characters but eight UTF-16 code units: the length
      check lets such a password through. */
  lemma FourEmojiPasswordIsLongEnough(email: string)
    requires LooksLikeEmail(email)
    ensures Check(email, "\U{1F600}\U{1F600}\U{1F600}\U{1F600}") == Refused
  {
    var p := "\U{1F600}\U{1F600}\U{1F600}\U{1F600}";
    assert AstralsBelow(p, 4) == 4;
  }

  /** A malformed email is reported whatever the password is, even a short one. */
  lemma EmailCheckedBeforePassword(email: string, password: string)
    requires !LooksLikeEmail(email)
    ensures SetError("Please enter a valid admin email") in SubmitTrace(Check(email, password))
    ensures SetError("Password must be at least 8 characters") !in SubmitTrace(Check(email, password))
  {
  }

  /** The state of the `AdminLogin` component. */
  class LoginForm {
    var email: string
    var password: string
    var error: string
    var isLoading: bool
    /** Every setter call and navigation made so far. */
    var updates: seq<Update>

    constructor ()
      ensures email == "" && password == "" && error == "" && !isLoading && updates == []
    {
      email, password, error, isLoading, updates := "", "", "", false, [];
    }

    /** The `onChange` handlers of the two inputs. */
    method EditEmail(s: string)
      modifies this
      ensures email == s && password == old(password) && error == old(error)
      ensures isLoading == old(isLoading) && updates == old(updates)
    {
      email := s;
    }

    method EditPassword(s: string)
      modifies this
      ensures password == s && email == old(email) && error == old(error)
      ensures isLoading == old(isLoading) && updates == old(updates)
    {
      password := s;
    }

    method SetIsLoading(b: bool)
      modifies this
      ensures isLoading == b && updates == old(updates) + [SetLoading(b)]
      ensures email == old(email) && password == old(password) && error == old(error)
    {
      isLoading := b;
      updates := updates + [SetLoading(b)];
    }

    method SetErrorMessage(m: string)
      modifies this
      ensures error == m && updates == old(updates) + [SetError(m)]
      ensures email == old(email) && password == old(password) && isLoading == old(isLoading)
    {
      error := m;
      updates := updates + [SetError(m)];
    }

    /** `handleSubmit`. */
    method HandleSubmit()
      modifies this
      ensures updates == old(updates) + SubmitTrace(Check(email, password))
      ensures !isLoading
      ensures error == ErrorAfter(Check(email, password))
      ensures email == old(email) && password == old(password)
    {
      ghost var verdict := Check(email, password);
      SetIsLoading(true);
      SetErrorMessage("");
      ghost var started := updates;
      if !LooksLikeEmail(email) {
        SetErrorMessage(InvalidEmailError);
        SetIsLoading(false);
        assert verdict == InvalidEmail;
        return;
      }
      if Utf16Length(password) < MinPasswordLength {
        SetErrorMessage(ShortPasswordError);
        SetIsLoading(false);
        assert verdict == ShortPassword;
        return;
      }
      if email == DemoEmail && password == DemoPassword {
        assert verdict == Accepted;
        updates := updates + [Navigate(DashboardPath)];
      } else {
        assert verdict == Refused;
        SetErrorMessage(RefusedError);
      }
      SetIsLoading(false);
    }
  }
}

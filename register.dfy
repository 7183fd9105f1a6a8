/** The registration form controller: the four pieces of component state,
    the change, blur and submit handlers, and the validators they use. */
module Register {
  import opened EmailPattern

  /** The `name` attribute of the input that fired a change event. */
  datatype Field = Username | Email | Password | RePassword

  /** The `input` state record. */
  datatype Input = Input(username: string, email: string, password: string, rePassword: string)
  {
    function Get(f: Field): string {
      match f
      case Username => username
      case Email => email
      case Password => password
      case RePassword => rePassword
    }

    /** {...state, [name]: value} */
    function With(f: Field, v: string): (r: Input)
      ensures r.Get(f) == v
      ensures forall g | g != f :: r.Get(g) == Get(g)
    {
      match f
      case Username => this.(username := v)
      case Email => this.(email := v)
      case Password => this.(password := v)
      case RePassword => this.(rePassword := v)
    }
  }

  /** The `errors` state record: true marks a field as invalid. Nothing in
      the component ever sets uniqueUsername. */
  datatype Errors = Errors(username: bool, uniqueUsername: bool, email: bool, password: bool, rePassword: bool)
  {
    function Flag(f: Field): bool {
      match f
      case Username => username
      case Email => email
      case Password => password
      case RePassword => rePassword
    }

    /** {...state, [name]: false} */
    function Cleared(f: Field): (r: Errors)
      ensures !r.Flag(f)
      ensures forall g | g != f :: r.Flag(g) == Flag(g)
      ensures r.uniqueUsername == uniqueUsername
    {
      match f
      case Username => this.(username := false)
      case Email => this.(email := false)
      case Password => this.(password := false)
      case RePassword => this.(rePassword := false)
    }
  }

  /** The `authErrors` state. setAuthErrors(false, false) stores the single
      argument `false` in place of the record (Falsy); both flags then read
      as undefined, which the form treats as false. Spreading `false` copies
      no properties, so a later {...state, k: true} is a record holding only k,
      and its other flag reads as false too. */
  datatype AuthErrors = AuthRecord(usernameNotUnique: bool, emailTaken: bool) | Falsy
  {
    predicate UsernameNotUniqueShown() {
      AuthRecord? && usernameNotUnique
    }

    predicate EmailTakenShown() {
      AuthRecord? && emailTaken
    }

    /** {...state, usernameNotUnique: true} */
    function WithUsernameNotUnique(): (r: AuthErrors)
      ensures r.UsernameNotUniqueShown()
      ensures r.EmailTakenShown() == EmailTakenShown()
    {
      match this
      case Falsy => AuthRecord(true, false)
      case AuthRecord(_, taken) => AuthRecord(true, taken)
    }

    /** {...state, emailTaken: true} */
    function WithEmailTaken(): (r: AuthErrors)
      ensures r.EmailTakenShown()
      ensures r.UsernameNotUniqueShown() == UsernameNotUniqueShown()
    {
      match this
      case Falsy => AuthRecord(false, true)
      case AuthRecord(notUnique, _) => AuthRecord(notUnique, true)
    }
  }

  /** How the username-uniqueness promise settles: resolved with true,
      resolved with false, or rejected. The source attaches no handler for a
      rejection, so that outcome ends the submit silently. */
  datatype UniqueAnswer = Unique | Taken | Rejected

  /** What the account-creation service reports: success, or a rejection
      carrying the provider's error code. */
  datatype RegisterResult = Ok | Fail(code: string)

  /** The backend requests a submit issues, in order. */
  datatype BackendCall =
    | UniquenessCheck(username: string)
    | CreateAccount(username: string, email: string, password: string)

  /** Where the router is sent, if anywhere. */
  datatype Navigation = Stay | NavigateTo(path: string)

  const HomeRoute: string := "/"
  const NotFoundRoute: string := "/not-found"
  const EmailInUseCode: string := "auth/email-already-in-use"

  /** usernameValidator: the username is not 3 to 15 characters long. */
  function UsernameInvalid(username: string): bool {
    |username| < 3 || |username| > 15
  }

  /** emailValidator: the email contains no match of \S+@\S+\.\S+
      (EmailInvalidIffNoMatch relates it to the regular expression). */
  function EmailInvalid(email: string): bool {
    !EmailTest(email)
  }

  /** passwordValidator: the password is not 6 to 50 characters long. */
  function PasswordInvalid(password: string): bool {
    |password| < 6 || |password| > 50
  }

  /** rePasswordValidator: the two passwords differ. */
  function RePasswordInvalid(password: string, rePassword: string): bool {
    password != rePassword
  }

  /** The expression the change handler stores in formValid. The rePassword
      clause checks only a length window of 5 to 51, not equality. */
  function FormValid(i: Input): bool {
    && 3 <= |i.username| <= 15
    && EmailTest(i.email)
    && 6 <= |i.password| <= 50
    && 5 <= |i.rePassword| <= 51
  }

  /** The email validator flags exactly the strings the regular expression
      does not match anywhere. */
  lemma EmailInvalidIffNoMatch(email: string)
    ensures EmailInvalid(email) <==> !MatchesEmail(email)
  {
    EmailTestIsMatch(email);
  }

  /** formValid, clause by clause, against the blur validators and the
      regular expression. */
  lemma FormValidClauses(i: Input)
    ensures FormValid(i) <==>
      && !UsernameInvalid(i.username)
      && MatchesEmail(i.email)
      && !PasswordInvalid(i.password)
      && 5 <= |i.rePassword| <= 51
  {
    EmailTestIsMatch(i.email);
  }

  /** An input that passes all four blur validators is one formValid accepts:
      the wider rePassword window never rejects a matching rePassword. */
  lemma BlurCleanImpliesFormValid(i: Input)
    requires !UsernameInvalid(i.username) && !EmailInvalid(i.email)
    requires !PasswordInvalid(i.password) && !RePasswordInvalid(i.password, i.rePassword)
    ensures FormValid(i)
  {
  }

  /** The converse fails: formValid accepts mismatched passwords, and a
      rePassword of length 5, which the password window would reject. */
  lemma FormValidIgnoresMismatch()
    ensures FormValid(Input("abc", "a@b.c", "secret1", "secret2"))
    ensures RePasswordInvalid("secret1", "secret2")
    ensures FormValid(Input("abc", "a@b.c", "secret1", "short"))
    ensures PasswordInvalid("short")
  {
    assert AtDotPair("a@b.c", 1, 3);
  }

  /** A two-letter username never makes the form valid; three letters pass
      that clause. */
  lemma UsernameBounds(i: Input)
    ensures |i.username| == 2 ==> !FormValid(i)
    ensures |i.username| == 3 ==> !UsernameInvalid(i.username)
  {
  }

  /** The Register component's state and its event handlers. Each handler is
      one atomic transition; the asynchronous continuations of a submit run
      against the input as it was when the form was submitted. */
  class RegisterForm {
    var input: Input
    var errors: Errors
    var authErrors: AuthErrors
    var formValid: bool

    /** The initial useState values. */
    constructor ()
      ensures input == Input("", "", "", "")
      ensures errors == Errors(false, false, false, false, false)
      ensures authErrors == AuthRecord(false, false)
      ensures !formValid
    {
      input := Input("", "", "", "");
      errors := Errors(false, false, false, false, false);
      authErrors := AuthRecord(false, false);
      formValid := false;
    }

    /** onChangeHandler for the input named `name` with value `value`. The
        formValid expression reads `input` as it was rendered, i.e. before
        this change. */
    method OnChange(name: Field, value: string)
      modifies this
      ensures input == old(input).With(name, value)
      ensures errors == old(errors).Cleared(name)
      ensures authErrors == Falsy
      ensures !authErrors.UsernameNotUniqueShown() && !authErrors.EmailTakenShown()
      ensures formValid == FormValid(old(input))
    {
      formValid := FormValid(input);
      input := input.With(name, value);
      errors := errors.Cleared(name);
      authErrors := Falsy;
    }

    /** usernameValidator (on blur). */
    method UsernameBlur()
      modifies this`errors
      ensures errors == old(errors).(username := |input.username| < 3 || |input.username| > 15)
    {
      errors := errors.(username := UsernameInvalid(input.username));
    }

    /** emailValidator (on blur). */
    method EmailBlur()
      modifies this`errors
      ensures errors == old(errors).(email := !MatchesEmail(input.email))
    {
      EmailInvalidIffNoMatch(input.email);
      errors := errors.(email := EmailInvalid(input.email));
    }

    /** passwordValidator (on blur). */
    method PasswordBlur()
      modifies this`errors
      ensures errors == old(errors).(password := |input.password| < 6 || |input.password| > 50)
    {
      errors := errors.(password := PasswordInvalid(input.password));
    }

    /** rePasswordValidator (on blur). */
    method RePasswordBlur()
      modifies this`errors
      ensures errors == old(errors).(rePassword := input.password != input.rePassword)
    {
      errors := errors.(rePassword := RePasswordInvalid(input.password, input.rePassword));
    }

    /** onSubmit, with the user directory and the authentication provider
        given as the answers they would return. Returns the backend requests
        issued, in order, and where the router is sent. */
    method OnSubmit(isUsernameUnique: string -> UniqueAnswer, register: (string, string, string) -> RegisterResult)
      returns (calls: seq<BackendCall>, nav: Navigation)
      modifies this`errors, this`authErrors
      // A local mismatch flags rePassword and goes no further.
      ensures input.password != input.rePassword ==>
        && errors == old(errors).(rePassword := true)
        && authErrors == old(authErrors)
        && calls == [] && nav == Stay
      // Otherwise the error flags are left as they were and the username is checked.
      ensures input.password == input.rePassword ==>
        && errors == old(errors)
        && |calls| > 0 && calls[0] == UniquenessCheck(input.username)
      ensures input.password == input.rePassword && isUsernameUnique(input.username) == Taken ==>
        && authErrors == old(authErrors).WithUsernameNotUnique()
        && calls == [UniquenessCheck(input.username)] && nav == Stay
      // A rejected uniqueness check has no handler: nothing further happens.
      ensures input.password == input.rePassword && isUsernameUnique(input.username) == Rejected ==>
        && authErrors == old(authErrors)
        && calls == [UniquenessCheck(input.username)] && nav == Stay
      ensures input.password == input.rePassword && isUsernameUnique(input.username) == Unique ==>
        && calls == [UniquenessCheck(input.username),
                     CreateAccount(input.username, input.email, input.password)]
        && var outcome := register(input.username, input.email, input.password);
           && (outcome.Ok? ==> nav == NavigateTo(HomeRoute) && authErrors == old(authErrors))
           && (outcome == Fail(EmailInUseCode) ==>
                 nav == Stay && authErrors == old(authErrors).WithEmailTaken())
           && (outcome.Fail? && outcome.code != EmailInUseCode ==>
                 nav == NavigateTo(NotFoundRoute) && authErrors == old(authErrors))
      // Navigation home happens exactly on a successful registration.
      ensures nav == NavigateTo(HomeRoute) <==>
        && input.password == input.rePassword
        && isUsernameUnique(input.username) == Unique
        && register(input.username, input.email, input.password).Ok?
    {
      calls, nav := [], Stay;
      if input.password != input.rePassword {
        errors := errors.(rePassword := true);
        return;
      }
      calls := calls + [UniquenessCheck(input.username)];
      var answer := isUsernameUnique(input.username);
      if answer == Rejected {
        return;
      }
      if answer == Taken {
        authErrors := authErrors.WithUsernameNotUnique();
        return;
      }
      calls := calls + [CreateAccount(input.username, input.email, input.password)];
      var outcome := register(input.username, input.email, input.password);
      if outcome.Ok? {
        nav := NavigateTo(HomeRoute);
      } else if outcome.code == EmailInUseCode {
        authErrors := authErrors.WithEmailTaken();
      } else {
        nav := NavigateTo(NotFoundRoute);
      }
    }
  }

  /** Filling in a valid form field by field: after the last keystroke the
      input is valid but formValid still describes the input before it, so
      the submit button stays disabled until one more change event. */
  method StaleValidityScenario() returns (validAfterLast: bool, validAfterNext: bool)
    ensures !validAfterLast && validAfterNext
  {
    var form := new RegisterForm();
    form.OnChange(Username, "john");
    form.OnChange(Email, "j@x.io");
    form.OnChange(Password, "secret1");
    form.OnChange(RePassword, "secret1");
    assert AtDotPair("j@x.io", 1, 3);
    assert FormValid(form.input);
    validAfterLast := form.formValid;
    form.OnChange(RePassword, "secret1");
    validAfterNext := form.formValid;
  }

  /** Submitting "secret1" against "secret2" issues no backend request
      and flags rePassword. */
  method MismatchScenario(isUsernameUnique: string -> UniqueAnswer, register: (string, string, string) -> RegisterResult)
    returns (calls: seq<BackendCall>, nav: Navigation, rePasswordFlagged: bool)
    ensures calls == [] && nav == Stay && rePasswordFlagged
  {
    var form := new RegisterForm();
    form.OnChange(Password, "secret1");
    form.OnChange(RePassword, "secret2");
    calls, nav := form.OnSubmit(isUsernameUnique, register);
    rePasswordFlagged := form.errors.rePassword;
  }
}

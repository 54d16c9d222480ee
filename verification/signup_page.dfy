/** The sign-up form (frontend/app/signup/page.jsx): the order of its two
    checks and what the submit handler leaves in the form state. */
module SignupPage {
  import opened Common

  const MismatchError: string := "Passwords do not match"
  const LengthError: string := "Password must be at least 6 characters long"
  const FallbackError: string := "Failed to create account. Please try again."

  /** The checks before `signUp`: the confirmation first, then the length.
      `None` lets the form through. */
  function ValidateSignup(password: string, confirmPassword: string): (err: Option<string>)
    ensures err.None? <==> password == confirmPassword && |password| >= 6
    ensures password != confirmPassword ==> err == Some(MismatchError)
    ensures password == confirmPassword && |password| < 6 ==> err == Some(LengthError)
  {
    if password != confirmPassword then Some(MismatchError)
    else if |password| < 6 then Some(LengthError)
    else None
  }

  /** How the awaited `signUp` call ended. */
  datatype SignUpResult =
    | SignedUp
    | ThrewError(message: string)   // an `Error` instance
    | ThrewOther                    // anything else thrown

  /** The message the `catch` block shows: the error's own message unless
      it is empty, otherwise the fallback text. */
  function FailureMessage(result: SignUpResult): (msg: string)
    requires !result.SignedUp?
    ensures msg != []
    ensures result.ThrewError? && result.message != [] ==> msg == result.message
  {
    if result.ThrewError? && result.message != [] then result.message else FallbackError
  }

  class SignupForm {
    var error: string
    var loading: bool
    var navigatedTo: Option<string>

    constructor ()
      ensures error == [] && !loading && navigatedTo.None?
    {
      error, loading, navigatedTo := [], false, None;
    }

    /** `handleSubmit`, given how `signUp` would end if it were called;
        `called` tells whether it was. */
    method HandleSubmit(password: string, confirmPassword: string, signUp: SignUpResult)
      returns (called: bool)
      modifies this
      ensures called <==> ValidateSignup(password, confirmPassword).None?
      ensures !called ==>
        error == ValidateSignup(password, confirmPassword).value &&
        loading == old(loading) && navigatedTo == old(navigatedTo)
      ensures called ==> !loading
      ensures called && signUp.SignedUp? ==> error == [] && navigatedTo == Some("calculator")
      ensures called && !signUp.SignedUp? ==>
        error == FailureMessage(signUp) && navigatedTo == old(navigatedTo)
    {
      error := [];
      var invalid := ValidateSignup(password, confirmPassword);
      if invalid.Some? {
        error := invalid.value;
        return false;
      }
      loading := true;
      called := true;
      if signUp.SignedUp? {
        navigatedTo := Some("calculator");
      } else {
        error := FailureMessage(signUp);
      }
      loading := false;
    }
  }
}

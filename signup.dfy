/**
 * The sign-up form (`app/auth/signup/page.tsx`): the two password checks run before anything is sent,
 * then one request goes to the sign-up endpoint and the page shows success or the returned error.
 */
module Signup {
  import opened Wrappers

  /** The JSON body posted to `/api/signup`. */
  datatype SignupRequest = SignupRequest(email: string, password: string, firstName: string, lastName: string)

  /** What the request produced: a response with its `ok` flag and its `error` field, or a thrown error. */
  datatype Outcome = Response(ok: bool, error: Option<string>) | Thrown(message: string)

  const Mismatch := "Lozinke se ne podudaraju"
  const TooShort := "Lozinka mora imati najmanje 6 karaktera"
  const GenericFailure := "Došlo je do greške pri registraciji"
  const SuccessRedirect := "/auth/login?message=signup-success"

  /** The message shown for a failed request: the server's or the thrown error's text, else the generic one. */
  function FailureMessage(outcome: Outcome): (message: string)
    ensures message != ""
  {
    match outcome
    case Response(_, error) => if error.Some? && error.value != "" then error.value else GenericFailure
    case Thrown(message) => if message != "" then message else GenericFailure
  }

  /** The page's state; `sent` lists the requests posted so far and `redirect` the scheduled navigation. */
  class SignupPage {
    var email: string
    var password: string
    var confirmPassword: string
    var firstName: string
    var lastName: string
    var loading: bool
    var error: Option<string>
    var success: bool
    var sent: seq<SignupRequest>
    var redirect: Option<string>

    constructor()
      ensures email == "" && password == "" && confirmPassword == "" && firstName == "" && lastName == ""
      ensures !loading && error.None? && !success && sent == [] && redirect.None?
    {
      email, password, confirmPassword, firstName, lastName := "", "", "", "", "";
      loading, error, success := false, None, false;
      sent, redirect := [], None;
    }

    /**
     * `handleSignup`. Differing passwords are reported first, then a password under six characters;
     * either way nothing is sent. Otherwise one request is sent; the page succeeds (and schedules the
     * redirect to the login page) only on a response with `ok`, and shows the failure message
     * otherwise. `loading` is false again on every path.
     */
    method HandleSignup(outcome: Outcome)
      modifies this
      ensures !loading
      ensures email == old(email) && password == old(password) && confirmPassword == old(confirmPassword)
      ensures firstName == old(firstName) && lastName == old(lastName)
      ensures password != confirmPassword ==>
                error == Some(Mismatch) && !success && sent == old(sent) && redirect == old(redirect)
      ensures password == confirmPassword && |password| < 6 ==>
                error == Some(TooShort) && !success && sent == old(sent) && redirect == old(redirect)
      ensures password == confirmPassword && |password| >= 6 ==>
                sent == old(sent) + [SignupRequest(email, password, firstName, lastName)]
                && (success <==> outcome.Response? && outcome.ok)
                && (success ==> error.None? && redirect == Some(SuccessRedirect))
                && (!success ==> error == Some(FailureMessage(outcome)) && redirect == old(redirect))
      ensures success ==> password == confirmPassword && |password| >= 6 && |sent| == |old(sent)| + 1
    {
      loading := true;
      error := None;
      success := false;
      if password != confirmPassword {
        error := Some(Mismatch);
        loading := false;
        return;
      }
      if |password| < 6 {
        error := Some(TooShort);
        loading := false;
        return;
      }
      sent := sent + [SignupRequest(email, password, firstName, lastName)];
      if outcome.Response? && outcome.ok {
        success := true;
        redirect := Some(SuccessRedirect);
      } else {
        error := Some(FailureMessage(outcome));
      }
      loading := false;
    }
  }
}

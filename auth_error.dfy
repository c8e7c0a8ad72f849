/**
 * The authentication error page (`app/auth/error/AuthErrorContent.tsx`): the message, title and
 * suggested link shown for the `error` query parameter, and the five-second countdown that then sends
 * the visitor to the sign-up page.
 */
module AuthError {
  import opened Wrappers

  const OtpExpired := "otp_expired"
  const CallbackFailed := "auth_callback_failed"
  const EmailNotConfirmed := "email_not_confirmed"
  const InvalidCredentials := "invalid_credentials"
  const KnownCodes := {OtpExpired, CallbackFailed, EmailNotConfirmed, InvalidCredentials}

  const GenericMessage := "Došlo je do neočekivane greške pri autentifikaciji."
  const GenericTitle := "Greška pri autentifikaciji"
  const SignupPath := "/auth/signup"
  const ResendPath := "/auth/signup?resend=true"
  const LoginPath := "/auth/login"

  /** The error code is one of the four the page knows (`error` is `null` when the parameter is missing). */
  predicate IsKnown(code: Option<string>)
  {
    code.Some? && code.value in KnownCodes
  }

  /** `getErrorMessage`: a fixed text per known code; otherwise the `error_description` parameter when it is non-empty, else the generic text. */
  function ErrorMessage(code: Option<string>, description: Option<string>): string
  {
    if code == Some(OtpExpired) then "Verifikacioni link je istekao. Molimo zatražite novi."
    else if code == Some(CallbackFailed) then "Došlo je do greške pri verifikaciji. Pokušajte ponovo."
    else if code == Some(EmailNotConfirmed) then "Email adresa nije verifikovana. Molimo proverite vaš inbox."
    else if code == Some(InvalidCredentials) then "Neispravni podaci za prijavu. Proverite email i lozinku."
    else if description.Some? && description.value != "" then description.value
    else GenericMessage
  }

  /** `getErrorTitle`. */
  function ErrorTitle(code: Option<string>): string
  {
    if code == Some(OtpExpired) then "Link je istekao"
    else if code == Some(CallbackFailed) then "Greška pri verifikaciji"
    else if code == Some(EmailNotConfirmed) then "Email nije verifikovan"
    else if code == Some(InvalidCredentials) then "Neispravni podaci"
    else GenericTitle
  }

  /** `getSuggestedAction`. */
  function SuggestedAction(code: Option<string>): string
  {
    if code == Some(OtpExpired) || code == Some(EmailNotConfirmed) then ResendPath
    else if code == Some(InvalidCredentials) then LoginPath
    else SignupPath
  }

  /**
   * The description is shown only for unknown codes, and the known codes never fall back to the
   * generic text.
   */
  lemma ErrorMessageCases(code: Option<string>, description: Option<string>)
    ensures !IsKnown(code) && description.Some? && description.value != "" ==> ErrorMessage(code, description) == description.value
    ensures !IsKnown(code) && (description.None? || description.value == "") ==> ErrorMessage(code, description) == GenericMessage
    ensures IsKnown(code) ==> ErrorMessage(code, description) != GenericMessage
                              && ErrorMessage(code, description) == ErrorMessage(code, None)
  {
  }

  /** The title is the generic one exactly for unknown codes, and different known codes get different titles. */
  lemma ErrorTitleCases(code: Option<string>, other: Option<string>)
    ensures ErrorTitle(code) == GenericTitle <==> !IsKnown(code)
    ensures IsKnown(code) && IsKnown(other) && ErrorTitle(code) == ErrorTitle(other) ==> code == other
  {
  }

  /** Expired links and unconfirmed addresses are offered a new e-mail, bad credentials the login page, everything else sign-up. */
  lemma SuggestedActionCases(code: Option<string>)
    ensures SuggestedAction(code) == ResendPath <==> code == Some(OtpExpired) || code == Some(EmailNotConfirmed)
    ensures SuggestedAction(code) == LoginPath <==> code == Some(InvalidCredentials)
    ensures SuggestedAction(code) == SignupPath <==> !(code.Some? && code.value in {OtpExpired, EmailNotConfirmed, InvalidCredentials})
  {
  }

  /**
   * The countdown state and the timer effect on it. `ticks` counts the timer callbacks that have run;
   * `redirect` is the page the router was sent to.
   */
  class Countdown {
    var countdown: nat
    var redirect: Option<string>
    ghost var ticks: nat

    /** The count is five less the elapsed seconds, and the redirect has happened exactly when it reached 0. */
    ghost predicate Valid()
      reads this
    {
      ticks <= 5 && countdown == 5 - ticks && (redirect.Some? <==> countdown == 0)
      && (redirect.Some? ==> redirect.value == SignupPath)
    }

    constructor()
      ensures Valid() && countdown == 5 && redirect.None? && ticks == 0
    {
      countdown := 5;
      redirect := None;
      ticks := 0;
    }

    /**
     * One timer callback, which is only scheduled while the count is positive: the count drops by one,
     * and when it reaches 0 the effect runs again and redirects to sign-up.
     */
    method Tick()
      requires Valid() && countdown > 0
      modifies this
      ensures Valid()
      ensures countdown == old(countdown) - 1 && ticks == old(ticks) + 1
      ensures redirect.Some? <==> old(countdown) == 1
    {
      countdown := countdown - 1;
      ticks := ticks + 1;
      if countdown == 0 {
        redirect := Some(SignupPath);
      }
    }
  }
}

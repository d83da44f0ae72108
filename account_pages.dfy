/** The account forms: registration (src/app/register/page.tsx), login
    (src/app/login/page.tsx) and the password change of the profile page
    (src/app/profile/page.tsx). Each submit handler runs its client-side
    checks in order, sends nothing when one fails, and otherwise reports the
    server's answer; the answer is a parameter. */
module AccountPages {
  import opened Wrappers
  import opened FormRules
  import RegisterRoute

  // ---------------------------------------------------------------- register

  const InvalidEmail := "Please enter a valid email address."
  const WeakPassword := "Password must be at least 8 characters and include uppercase, lowercase, number, and special character."
  const RegisterFailed := "Something went wrong."
  const Registered := "Registration successful! Redirecting to login..."

  /** The registration page's client checks: the email first, then the password. */
  function RegisterCheck(email: string, password: string): (r: Option<string>)
    ensures r == None <==> ValidEmail(email) && ValidPassword(password)
    ensures !ValidEmail(email) ==> r == Some(InvalidEmail)
    ensures ValidEmail(email) && !ValidPassword(password) ==> r == Some(WeakPassword)
  {
    if !ValidEmail(email) then Some(InvalidEmail)
    else if !ValidPassword(password) then Some(WeakPassword)
    else None
  }

  /** Whatever the client lets through has the email and a password the
      route's first check wants; the username is not checked by the client. */
  lemma ClientAcceptancePassesServerLength(email: string, username: string, password: string)
    requires RegisterCheck(email, password).None? && username != ""
    ensures RegisterRoute.FieldsAcceptable(RegisterRoute.RegisterBody(Some(email), Some(username), Some(password)))
  {
    ValidEmailNonEmpty(email);
  }

  /** So with a well-formed username the route gets past both field checks. */
  lemma ClientAcceptanceWellFormed(email: string, username: string, password: string)
    requires RegisterCheck(email, password).None? && ValidUsername(username)
    ensures RegisterRoute.WellFormed(Some(RegisterRoute.RegisterBody(Some(email), Some(username), Some(password))))
  {
    ClientAcceptancePassesServerLength(email, username, password);
  }

  /** The registration form's state. */
  class RegisterForm {
    var email: string
    var username: string
    var password: string
    var error: Option<string>
    var success: Option<string>
    var isLoading: bool
    var redirectScheduled: bool

    constructor ()
      ensures email == "" && username == "" && password == ""
      ensures error.None? && success.None? && !isLoading && !redirectScheduled
    {
      email, username, password := "", "", "";
      error, success := None, None;
      isLoading, redirectScheduled := false, false;
    }

    /** `handleSubmit`. A failed client check sets its message and sends
        nothing; otherwise the three fields are sent and the reply sets the
        error or the success message; a rejected request leaves `isLoading` set. */
    method HandleSubmit(reply: Reply) returns (sent: Option<RegisterRoute.RegisterBody>)
      modifies this
      ensures email == old(email) && username == old(username) && password == old(password)
      ensures RegisterCheck(email, password).Some? ==>
        sent.None? && error == RegisterCheck(email, password) && success.None? &&
        isLoading == old(isLoading) && redirectScheduled == old(redirectScheduled)
      ensures RegisterCheck(email, password).None? ==>
        sent == Some(RegisterRoute.RegisterBody(Some(email), Some(username), Some(password)))
      ensures RegisterCheck(email, password).None? && reply.Replied? ==> !isLoading
      ensures RegisterCheck(email, password).None? && reply.Replied? && reply.ok ==>
        error.None? && success == Some(Registered) && redirectScheduled
      ensures RegisterCheck(email, password).None? && reply.Replied? && !reply.ok ==>
        error == Some(ErrorOr(reply.error, RegisterFailed)) && success.None? && redirectScheduled == old(redirectScheduled)
      ensures RegisterCheck(email, password).None? && reply.Rejected? ==>
        error.None? && success.None? && isLoading && redirectScheduled == old(redirectScheduled)
    {
      error := None;
      success := None;
      if !ValidEmail(email) {
        error := Some(InvalidEmail);
        return None;
      }
      if !ValidPassword(password) {
        error := Some(WeakPassword);
        return None;
      }
      isLoading := true;
      sent := Some(RegisterRoute.RegisterBody(Some(email), Some(username), Some(password)));
      match reply {
        case Rejected =>
          return;
        case Replied(ok, e) =>
          if !ok {
            error := Some(ErrorOr(e, RegisterFailed));
          } else {
            success := Some(Registered);
            redirectScheduled := true;
          }
      }
      isLoading := false;
    }
  }

  // ------------------------------------------------------------------- login

  const ShortPassword := "Password should be at least 8 characters."
  const LoginFailed := "Login failed. Please try again."
  const NetworkError := "Network error. Please try again."

  /** The login page's client checks: the email pattern only for an
      identifier containing '@', then a password of one to seven characters. */
  function LoginCheck(identifier: string, password: string): (r: Option<string>)
    ensures r == Some(InvalidEmail) <==> '@' in identifier && !ValidEmail(identifier)
    ensures r == Some(ShortPassword) <==> ('@' !in identifier || ValidEmail(identifier)) && 0 < |password| < 8
    ensures r.None? <==> ('@' !in identifier || ValidEmail(identifier)) && (|password| == 0 || |password| >= 8)
  {
    if '@' in identifier && !ValidEmail(identifier) then Some(InvalidEmail)
    else if |password| > 0 && |password| < 8 then Some(ShortPassword)
    else None
  }

  /** A user name is never checked against the email pattern, and an empty
      password passes the client. */
  lemma UsernameAndEmptyPasswordPass(identifier: string)
    requires '@' !in identifier
    ensures LoginCheck(identifier, "").None?
  {
  }

  /** The login form's state. */
  class LoginForm {
    var identifier: string
    var password: string
    var error: Option<string>
    var isLoading: bool
    var navigatedHome: bool

    constructor ()
      ensures identifier == "" && password == "" && error.None? && !isLoading && !navigatedHome
    {
      identifier, password := "", "";
      error := None;
      isLoading, navigatedHome := false, false;
    }

    /** `handleSubmit`: every path ends with `isLoading` false; a failed client
        check sends nothing; a reply sets the error or navigates home. */
    method HandleSubmit(reply: Reply) returns (sent: Option<(string, string)>)
      modifies this
      ensures identifier == old(identifier) && password == old(password) && !isLoading
      ensures LoginCheck(identifier, password).Some? ==>
        sent.None? && error == LoginCheck(identifier, password) && navigatedHome == old(navigatedHome)
      ensures LoginCheck(identifier, password).None? ==> sent == Some((identifier, password))
      ensures LoginCheck(identifier, password).None? && reply.Replied? && reply.ok ==> error.None? && navigatedHome
      ensures LoginCheck(identifier, password).None? && reply.Replied? && !reply.ok ==>
        error == Some(ErrorOr(reply.error, LoginFailed)) && navigatedHome == old(navigatedHome)
      ensures LoginCheck(identifier, password).None? && reply.Rejected? ==>
        error == Some(NetworkError) && navigatedHome == old(navigatedHome)
    {
      error := None;
      isLoading := true;
      if '@' in identifier && !ValidEmail(identifier) {
        error := Some(InvalidEmail);
        isLoading := false;
        return None;
      }
      if |password| > 0 && |password| < 8 {
        error := Some(ShortPassword);
        isLoading := false;
        return None;
      }
      sent := Some((identifier, password));
      match reply {
        case Rejected =>
          error := Some(NetworkError);
        case Replied(ok, e) =>
          if !ok {
            error := Some(ErrorOr(e, LoginFailed));
          } else {
            navigatedHome := true;
          }
      }
      isLoading := false;
    }
  }

  // ------------------------------------------------------- password change

  const PasswordTooShort := "Password must be at least 8 characters."
  const PasswordsDiffer := "Passwords do not match."
  const CurrentRequired := "Current password is required."
  const UpdateFailed := "Failed to update password."
  const Updated := "Password updated successfully."

  /** The profile page's checks, in order: new password length, confirmation,
      current password. */
  function PasswordUpdateCheck(password: string, confirmPassword: string, currentPassword: string): (r: Option<string>)
    ensures r == Some(PasswordTooShort) <==> |password| < 8
    ensures r == Some(PasswordsDiffer) <==> |password| >= 8 && password != confirmPassword
    ensures r == Some(CurrentRequired) <==> |password| >= 8 && password == confirmPassword && currentPassword == ""
    ensures r.None? <==> |password| >= 8 && password == confirmPassword && currentPassword != ""
  {
    if |password| < 8 then Some(PasswordTooShort)
    else if password != confirmPassword then Some(PasswordsDiffer)
    else if currentPassword == "" then Some(CurrentRequired)
    else None
  }

  /** The password-change part of the profile page. */
  class PasswordForm {
    var password: string
    var confirmPassword: string
    var currentPassword: string
    var pwMessage: Option<string>
    var pwError: Option<string>

    constructor ()
      ensures password == "" && confirmPassword == "" && currentPassword == ""
      ensures pwMessage.None? && pwError.None?
    {
      password, confirmPassword, currentPassword := "", "", "";
      pwMessage, pwError := None, None;
    }

    /** `handlePasswordUpdate`: a failed check sets its message and sends
        nothing; a successful change clears all three fields. */
    method HandlePasswordUpdate(reply: Reply) returns (sent: Option<(string, string)>)
      modifies this
      ensures var check := PasswordUpdateCheck(old(password), old(confirmPassword), old(currentPassword));
        check.Some? ==>
          sent.None? && pwError == check && pwMessage.None? &&
          password == old(password) && confirmPassword == old(confirmPassword) && currentPassword == old(currentPassword)
      ensures var check := PasswordUpdateCheck(old(password), old(confirmPassword), old(currentPassword));
        check.None? ==> sent == Some((old(currentPassword), old(password)))
      ensures var check := PasswordUpdateCheck(old(password), old(confirmPassword), old(currentPassword));
        check.None? && reply.Replied? && reply.ok ==>
          pwMessage == Some(Updated) && pwError.None? &&
          password == "" && confirmPassword == "" && currentPassword == ""
      ensures var check := PasswordUpdateCheck(old(password), old(confirmPassword), old(currentPassword));
        check.None? && !(reply.Replied? && reply.ok) ==>
          pwMessage.None? &&
          pwError == Some(if reply.Replied? then ErrorOr(reply.error, UpdateFailed) else UpdateFailed) &&
          password == old(password) && confirmPassword == old(confirmPassword) && currentPassword == old(currentPassword)
    {
      pwMessage := None;
      pwError := None;
      if |password| < 8 {
        pwError := Some(PasswordTooShort);
        return None;
      }
      if password != confirmPassword {
        pwError := Some(PasswordsDiffer);
        return None;
      }
      if currentPassword == "" {
        pwError := Some(CurrentRequired);
        return None;
      }
      sent := Some((currentPassword, password));
      match reply {
        case Rejected =>
          pwError := Some(UpdateFailed);
        case Replied(ok, e) =>
          if ok {
            pwMessage := Some(Updated);
            password := "";
            confirmPassword := "";
            currentPassword := "";
          } else {
            pwError := Some(ErrorOr(e, UpdateFailed));
          }
      }
    }
  }
}

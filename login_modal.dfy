/**
 * The login dialog and its password-reset wizard. `resetStep` selects what
 * the form shows and what submitting it does: 0 logs in, 1 looks the account
 * up and sends a reset code, 2 checks the code, anything else sets the new
 * password. Requests are not made here: each handler takes the reply it got.
 */
module LoginModal {
  import opened Wrappers
  import Text
  import AuthController
  import opened Replies

  /** The four checks `validatePassword` reports, one flag each. */
  datatype PasswordFlags = PasswordFlags(length: bool, upper: bool, lower: bool, special: bool)

  const NoFlags := PasswordFlags(false, false, false, false)

  /** `validatePassword(pwd)`. */
  function ValidatePassword(pwd: string): (f: PasswordFlags)
    ensures f.length <==> |pwd| >= 6
    ensures f.upper <==> exists i :: 0 <= i < |pwd| && 'A' <= pwd[i] <= 'Z'
    ensures f.lower <==> exists i :: 0 <= i < |pwd| && 'a' <= pwd[i] <= 'z'
    ensures f.special <==> exists i :: 0 <= i < |pwd| && pwd[i] in "!@#$%^&*(),.?\":{}|<>"
  {
    PasswordFlags(|pwd| >= 6, Text.HasUpper(pwd), Text.HasLower(pwd), Text.HasSpecial(pwd))
  }

  predicate AllHold(f: PasswordFlags) {
    f.length && f.upper && f.lower && f.special
  }

  /** The dialog accepts exactly the passwords the server's rule accepts. */
  lemma SameRuleAsServer(pwd: string)
    ensures AllHold(ValidatePassword(pwd)) <==> AuthController.PasswordValidation(pwd)
  {
  }

  /** The reply to `find-user-email`: an object that may hold the address, or an error. */
  datatype FindReply = Found(email: Option<string>) | FindFailed(message: Option<string>)

  /** The handler the form's `onSubmit` runs for a step. */
  datatype Handler = Login | SendCode | VerifyCode | SetPassword

  function HandlerFor(resetStep: int): (h: Handler)
    ensures h == Login <==> resetStep == 0
    ensures h == SendCode <==> resetStep == 1
    ensures h == VerifyCode <==> resetStep == 2
    ensures h == SetPassword <==> resetStep != 0 && resetStep != 1 && resetStep != 2
  {
    if resetStep == 0 then Login
    else if resetStep == 1 then SendCode
    else if resetStep == 2 then VerifyCode
    else SetPassword
  }

  class LoginForm {
    var emailOrUsername: string
    var password: string
    var error: string
    var success: string
    var resetStep: int
    var resetUsername: string
    var resetEmail: string
    var resetOtp: string
    var resetNewPassword: string
    var resetPasswordValid: PasswordFlags

    constructor()
      ensures emailOrUsername == "" && password == "" && error == "" && success == ""
      ensures ResetCleared()
    {
      emailOrUsername := "";
      password := "";
      error := "";
      success := "";
      resetStep := 0;
      resetUsername := "";
      resetEmail := "";
      resetOtp := "";
      resetNewPassword := "";
      resetPasswordValid := NoFlags;
    }

    /** Back at the login step with every reset field empty. */
    predicate ResetCleared()
      reads this
    {
      resetStep == 0 && resetUsername == "" && resetEmail == "" && resetOtp == ""
      && resetNewPassword == "" && resetPasswordValid == NoFlags
    }

    /** The "Forgot password" and "Back to login" links. */
    method GoToStep(step: int)
      modifies this
      ensures resetStep == step
      ensures resetUsername == old(resetUsername) && resetEmail == old(resetEmail) && resetOtp == old(resetOtp)
      ensures resetNewPassword == old(resetNewPassword) && resetPasswordValid == old(resetPasswordValid)
      ensures error == old(error) && success == old(success)
      ensures emailOrUsername == old(emailOrUsername) && password == old(password)
    {
      resetStep := step;
    }

    /** `handleSubmit`: log in; on success clear the form and leave the dialog. */
    method HandleSubmit(reply: Reply) returns (closed: bool)
      modifies this
      ensures closed <==> reply.Success?
      ensures reply.Success? ==> success == "Login successful!" && emailOrUsername == "" && password == ""
      ensures reply.Failure? ==>
        error == "Invalid credentials" && emailOrUsername == old(emailOrUsername) && password == old(password)
      ensures resetStep == old(resetStep)
    {
      if reply.Success? {
        success := "Login successful!";
        emailOrUsername := "";
        password := "";
        return true;
      }
      error := "Invalid credentials";
      return false;
    }

    /**
     * `handleResetStep0` (the step-1 form): look the account up by the
     * trimmed name or address, then have a code sent to the address found.
     * `sent` is the address the code was requested for.
     */
    method HandleResetStep0(found: FindReply, send: Reply) returns (looked: Option<string>, sent: Option<string>)
      modifies this
      ensures Text.Trim(old(resetUsername)) == "" ==>
        looked.None? && sent.None? && error == "Enter your username or email" && resetStep == old(resetStep)
      ensures Text.Trim(old(resetUsername)) != "" ==> looked == Some(Text.Trim(old(resetUsername)))
      ensures resetStep == 2 <==> old(resetStep) == 2 || (looked.Some? && found.Found? && Text.Truthy(found.email) && send.Success?)
      ensures looked.Some? && found.FindFailed? ==>
        sent.None? && error == ErrorText(found.message, "Error sending OTP") && resetStep == old(resetStep)
      ensures looked.Some? && found.Found? && !Text.Truthy(found.email) ==>
        sent.None? && error == "User not found" && resetStep == old(resetStep)
      ensures looked.Some? && found.Found? && Text.Truthy(found.email) ==>
        && sent == found.email && resetEmail == found.email.value
        && (send.Success? ==> resetStep == 2 && success == "OTP sent to your email!" && error == "")
        && (send.Failure? ==> resetStep == old(resetStep) && error == ErrorText(send.message, "Error sending OTP"))
      ensures resetUsername == old(resetUsername) && resetOtp == old(resetOtp) && resetNewPassword == old(resetNewPassword)
    {
      error := "";
      success := "";
      var trimmed := Text.Trim(resetUsername);
      if trimmed == "" {
        error := "Enter your username or email";
        return None, None;
      }
      looked := Some(trimmed);
      if found.FindFailed? {
        error := ErrorText(found.message, "Error sending OTP");
        return looked, None;
      }
      if !Text.Truthy(found.email) {
        error := "User not found";
        return looked, None;
      }
      resetEmail := found.email.value;
      sent := found.email;
      if send.Failure? {
        error := ErrorText(send.message, "Error sending OTP");
        return;
      }
      success := "OTP sent to your email!";
      resetStep := 2;
    }

    /** `handleResetStep2`: check the code for the address; on success go to the last step. */
    method HandleResetStep2(reply: Reply) returns (checked: (string, string))
      modifies this
      ensures checked == (old(resetEmail), old(resetOtp))
      ensures reply.Success? ==> resetStep == 3 && success == "OTP verified!" && error == old(error)
      ensures reply.Failure? ==>
        resetStep == old(resetStep) && error == ErrorText(reply.message, "Invalid OTP") && success == old(success)
      ensures resetEmail == old(resetEmail) && resetOtp == old(resetOtp) && resetNewPassword == old(resetNewPassword)
    {
      checked := (resetEmail, resetOtp);
      if reply.Success? {
        success := "OTP verified!";
        resetStep := 3;
      } else {
        error := ErrorText(reply.message, "Invalid OTP");
      }
    }

    /** `handleResetPasswordChange`: take the new password and show its flags. */
    method HandleResetPasswordChange(value: string)
      modifies this
      ensures resetNewPassword == value && resetPasswordValid == ValidatePassword(value)
      ensures error == "" && success == "" && resetStep == old(resetStep) && resetEmail == old(resetEmail)
    {
      resetNewPassword := value;
      resetPasswordValid := ValidatePassword(value);
      error := "";
      success := "";
    }

    /**
     * `handleResetStep3`: refuse a password breaking a rule; otherwise send
     * it, and on success schedule the return to the login step.
     */
    method HandleResetStep3(reply: Reply) returns (sent: Option<(string, string)>, scheduled: bool)
      modifies this
      ensures !AllHold(ValidatePassword(old(resetNewPassword))) ==>
        sent.None? && !scheduled && error == "Password does not meet all requirements"
      ensures sent.Some? <==> AllHold(ValidatePassword(old(resetNewPassword)))
      ensures sent.Some? ==> sent.value == (old(resetEmail), old(resetNewPassword))
      ensures sent.Some? ==>
        && (reply.Success? ==> scheduled && success == "Password reset successful!")
        && (reply.Failure? ==> !scheduled && error == ErrorText(reply.message, "Failed to reset password"))
      ensures resetStep == old(resetStep) && resetEmail == old(resetEmail) && resetNewPassword == old(resetNewPassword)
    {
      if !AllHold(ValidatePassword(resetNewPassword)) {
        error := "Password does not meet all requirements";
        return None, false;
      }
      sent := Some((resetEmail, resetNewPassword));
      if reply.Success? {
        success := "Password reset successful!";
        scheduled := true;
      } else {
        error := ErrorText(reply.message, "Failed to reset password");
        scheduled := false;
      }
    }

    /** The timer `handleResetStep3` schedules: back to login with the reset fields cleared. */
    method AfterResetDelay()
      modifies this
      ensures ResetCleared()
      ensures error == old(error) && success == old(success)
      ensures emailOrUsername == old(emailOrUsername) && password == old(password)
    {
      resetStep := 0;
      resetUsername := "";
      resetEmail := "";
      resetOtp := "";
      resetNewPassword := "";
      resetPasswordValid := NoFlags;
    }
  }

  /** A password the dialog sends always passes the server's check in `resetPassword`. */
  lemma SentPasswordPassesServer(pwd: string)
    requires AllHold(ValidatePassword(pwd))
    ensures AuthController.PasswordValidation(pwd)
  {
    SameRuleAsServer(pwd);
  }
}

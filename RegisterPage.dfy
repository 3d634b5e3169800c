/** The registration page (src/app/pages/register/register.component.ts): the form's validators,
  * the submit guard and the reset after an account is created. */
module RegisterPage {
  import opened Wrappers
  import opened Models

  const DefaultRole := "Student"
  const InvalidFormMessage := "Please complete all required fields correctly."
  const RegistrationFailedMessage := "Registration failed. Please try again."

  /** `passwordMatchValidator`: a mismatch needs both passwords non-empty and different. */
  predicate PasswordMismatch(password: string, confirmPassword: string) {
    password != "" && confirmPassword != "" && password != confirmPassword
  }

  /** The form is valid when every required field is non-empty, the password has at least six
    * characters, the email passes `Validators.email` (a parameter here) and the passwords do
    * not mismatch. `isActive` has no validator. */
  predicate FormValid(userName: string, name: string, email: string, role: string,
                      password: string, confirmPassword: string, isEmail: string -> bool) {
    && userName != "" && name != "" && email != "" && isEmail(email) && role != ""
    && password != "" && |password| >= 6 && confirmPassword != ""
    && !PasswordMismatch(password, confirmPassword)
  }

  /** A valid form carries two equal passwords of at least six characters: with both present
    * the validator leaves no room for a difference. */
  lemma ValidFormPasswordsAgree(userName: string, name: string, email: string, role: string,
                                password: string, confirmPassword: string, isEmail: string -> bool)
    ensures FormValid(userName, name, email, role, password, confirmPassword, isEmail) ==>
      password == confirmPassword && |confirmPassword| >= 6
    ensures PasswordMismatch(password, confirmPassword) ==>
      !FormValid(userName, name, email, role, password, confirmPassword, isEmail)
  {
  }

  class RegisterForm {
    var userName: string
    var name: string
    var email: string
    var role: string
    var isActive: bool
    var password: string
    var confirmPassword: string
    var isLoading: bool
    var errorMessage: string

    /** Every text field empty, the role Student and the account active. */
    predicate IsBlank()
      reads this
    {
      userName == "" && name == "" && email == "" && role == DefaultRole && isActive &&
      password == "" && confirmPassword == ""
    }

    constructor()
      ensures IsBlank() && !isLoading && errorMessage == ""
    {
      userName, name, email, role, isActive := "", "", "", DefaultRole, true;
      password, confirmPassword := "", "";
      isLoading, errorMessage := false, "";
    }

    /** `onSubmit`: an invalid form shows the fields message and sends nothing; a valid one
      * sends every field and clears the message. */
    method OnSubmit(isEmail: string -> bool) returns (request: Option<RegisterRequest>)
      modifies this
      ensures request.None? <==> !FormValid(old(userName), old(name), old(email), old(role), old(password), old(confirmPassword), isEmail)
      ensures request.None? ==> errorMessage == InvalidFormMessage && isLoading == old(isLoading)
      ensures request.Some? ==> errorMessage == "" && isLoading
      ensures request.Some? ==> request.value == RegisterRequest(userName, name, email, role, isActive, password, confirmPassword)
      ensures userName == old(userName) && name == old(name) && email == old(email) && role == old(role)
      ensures isActive == old(isActive) && password == old(password) && confirmPassword == old(confirmPassword)
    {
      if !FormValid(userName, name, email, role, password, confirmPassword, isEmail) {
        errorMessage := InvalidFormMessage;
        return None;
      }
      isLoading := true;
      errorMessage := "";
      request := Some(RegisterRequest(userName, name, email, role, isActive, password, confirmPassword));
    }

    /** The success branch: the form goes back to its starting values. */
    method OnRegistered()
      modifies this
      ensures IsBlank() && !isLoading && errorMessage == ""
    {
      isLoading := false;
      errorMessage := "";
      userName, name, email, role, isActive := "", "", "", DefaultRole, true;
      password, confirmPassword := "", "";
    }

    /** The error branch: the error's own message, or the fallback when it has none. */
    method OnRegisterFailed(message: Option<string>)
      modifies this
      ensures !isLoading
      ensures message.Some? && message.value != "" ==> errorMessage == message.value
      ensures message.None? || message.value == "" ==> errorMessage == RegistrationFailedMessage
      ensures userName == old(userName) && name == old(name) && email == old(email) && role == old(role)
      ensures isActive == old(isActive) && password == old(password) && confirmPassword == old(confirmPassword)
    {
      isLoading := false;
      errorMessage := if message.Some? && message.value != "" then message.value else RegistrationFailedMessage;
    }
  }

  /** A blank form never passes: the reset leaves nothing a second submit could send. */
  lemma BlankFormIsInvalid(isEmail: string -> bool)
    ensures !FormValid("", "", "", DefaultRole, "", "", isEmail)
  {
  }
}

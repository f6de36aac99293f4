/** `components/password-change-form.tsx`: the checks made before the new password
    is sent, and the message and fields afterwards. The translation function and
    the answer of `updateUser` are parameters. */
module PasswordChangeForm {
  import opened Wrappers

  const MinLength := 8

  /** What submitting leads to: a rejection with the message key, or the password
      sent to `updateUser`. */
  datatype Check = Rejected(key: string) | Send(password: string)

  /** The two checks, in the order they run: the confirmation first, then the length. */
  function Validate(newPassword: string, confirmPassword: string): (c: Check)
    ensures c.Send? <==> newPassword == confirmPassword && |newPassword| >= MinLength
    ensures c.Send? ==> c.password == newPassword
    ensures newPassword != confirmPassword ==> c == Rejected("auth.passwordsDoNotMatch")
    ensures newPassword == confirmPassword && |newPassword| < MinLength ==> c == Rejected("auth.passwordMinLength")
  {
    if newPassword != confirmPassword then Rejected("auth.passwordsDoNotMatch")
    else if |newPassword| < MinLength then Rejected("auth.passwordMinLength")
    else Send(newPassword)
  }

  datatype Kind = Success | Error
  datatype Message = Message(kind: Kind, text: string)

  /** The submit button is disabled while loading or while any field is empty. */
  predicate SubmitDisabled(loading: bool, current: string, newPassword: string, confirm: string) {
    loading || current == "" || newPassword == "" || confirm == ""
  }

  class Form {
    var currentPassword: string
    var newPassword: string
    var confirmPassword: string
    var loading: bool
    var message: Option<Message>

    constructor ()
      ensures currentPassword == "" && newPassword == "" && confirmPassword == ""
      ensures !loading && message.None?
    {
      currentPassword := "";
      newPassword := "";
      confirmPassword := "";
      loading := false;
      message := None;
    }

    /** `handleSubmit`: `tr` is `t`, `updateError` the message of the error
        `updateUser` reported, if any. Only the new password is sent; the current
        one is never checked. */
    method HandleSubmit(tr: string -> string, updateError: Option<string>) returns (sent: Option<string>)
      modifies this
      ensures var c := Validate(old(newPassword), old(confirmPassword));
              && (c.Rejected? ==> sent.None? && message == Some(Message(Error, tr(c.key))))
              && (c.Send? ==> sent == Some(c.password) && !loading)
      ensures sent.Some? && updateError.None? ==>
                && message == Some(Message(Success, "Password updated successfully"))
                && currentPassword == "" && newPassword == "" && confirmPassword == ""
      ensures sent.Some? && updateError.Some? ==>
                message == Some(Message(Error, if updateError.value != "" then updateError.value
                                               else "Failed to update password"))
      ensures !(sent.Some? && updateError.None?) ==>
                && currentPassword == old(currentPassword) && newPassword == old(newPassword)
                && confirmPassword == old(confirmPassword)
      ensures sent.None? ==> loading == old(loading)
    {
      message := None;
      var c := Validate(newPassword, confirmPassword);
      if c.Rejected? {
        message := Some(Message(Error, tr(c.key)));
        return None;
      }
      loading := true;
      sent := Some(c.password);
      if updateError.None? {
        message := Some(Message(Success, "Password updated successfully"));
        currentPassword := "";
        newPassword := "";
        confirmPassword := "";
      } else {
        message := Some(Message(Error, if updateError.value != "" then updateError.value
                                       else "Failed to update password"));
      }
      loading := false;
    }
  }
}

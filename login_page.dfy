/**
 * The `Login` page: a two-field form whose state is replaced field by field
 * and cleared after every submission.
 */
module LoginPage {
  import opened ClientCommon

  /** The form state `inputValue`. */
  datatype LoginInput = LoginInput(email: string, password: string)

  /** The `name` attributes of the form's inputs. */
  datatype LoginField = Email | Password

  class Login {
    var inputValue: LoginInput
    var toasts: seq<Toast>
    var timers: seq<Timer>

    constructor ()
      ensures inputValue == LoginInput("", "") && toasts == [] && timers == []
    {
      inputValue := LoginInput("", "");
      toasts, timers := [], [];
    }

    /** `handleOnChange`: `{ ...inputValue, [name]: value }`. */
    method HandleOnChange(name: LoginField, value: string)
      modifies this`inputValue
      ensures name == Email ==> inputValue == LoginInput(value, old(inputValue.password))
      ensures name == Password ==> inputValue == LoginInput(old(inputValue.email), value)
    {
      match name
      case Email => inputValue := inputValue.(email := value);
      case Password => inputValue := inputValue.(password := value);
    }

    /**
     * `handleSubmit`: posts the form (returned as `sent`); a truthy `success`
     * shows the server's message and schedules navigation to '/' after
     * 1000 ms; a falsy one shows the message as an error; a request error
     * shows a fixed message. The form is cleared in every case.
     */
    method HandleSubmit(outcome: SubmitOutcome) returns (sent: LoginInput)
      modifies this
      ensures sent == old(inputValue)
      ensures inputValue == LoginInput("", "")
      ensures outcome.Replied? && outcome.success ==>
        toasts == old(toasts) + [SuccessToast(outcome.message)] && timers == old(timers) + [Timer(1000, "/")]
      ensures outcome.Replied? && !outcome.success ==>
        toasts == old(toasts) + [ErrorToast(outcome.message)] && timers == old(timers)
      ensures outcome.RequestFailed? ==>
        toasts == old(toasts) + [ErrorToast("Login failed. Please try again.")] && timers == old(timers)
    {
      sent := inputValue;
      match outcome {
        case Replied(success, message) =>
          if success {
            toasts := toasts + [SuccessToast(message)];
            timers := timers + [Timer(RedirectDelayMs, HomeRoute)];
          } else {
            toasts := toasts + [ErrorToast(message)];
          }
        case RequestFailed =>
          toasts := toasts + [ErrorToast("Login failed. Please try again.")];
      }
      inputValue := inputValue.(email := "", password := "");
    }
  }

  /**
   * Typing an email and a password and submitting: both typed values are
   * sent, the reply decides the one toast shown, only a successful reply
   * schedules navigation home, and the form ends empty whatever the outcome.
   */
  method TypeAndSubmit(email: string, password: string, outcome: SubmitOutcome)
    returns (sent: LoginInput, after: LoginInput, scheduled: seq<Timer>, shown: Toast)
    ensures sent == LoginInput(email, password)
    ensures after == LoginInput("", "")
    ensures scheduled == if outcome.Replied? && outcome.success then [Timer(1000, "/")] else []
    ensures shown == match outcome
      case Replied(true, m) => SuccessToast(m)
      case Replied(false, m) => ErrorToast(m)
      case RequestFailed => ErrorToast("Login failed. Please try again.")
  {
    var page := new Login();
    page.HandleOnChange(Email, email);
    page.HandleOnChange(Password, password);
    sent := page.HandleSubmit(outcome);
    after := page.inputValue;
    scheduled := page.timers;
    shown := page.toasts[0];
  }
}

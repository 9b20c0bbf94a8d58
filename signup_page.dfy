/**
 * The `Signup` page: a three-field form whose state is replaced field by
 * field and cleared after every submission.
 */
module SignupPage {
  import opened ClientCommon

  /** The form state `inputValue`. */
  datatype SignupInput = SignupInput(email: string, password: string, username: string)

  /** The `name` attributes of the form's inputs. */
  datatype SignupField = Email | Password | Username

  class Signup {
    var inputValue: SignupInput
    var toasts: seq<Toast>
    var timers: seq<Timer>

    constructor ()
      ensures inputValue == SignupInput("", "", "") && toasts == [] && timers == []
    {
      inputValue := SignupInput("", "", "");
      toasts, timers := [], [];
    }

    /** `handleOnChange`: `{ ...inputValue, [name]: value }`. */
    method HandleOnChange(name: SignupField, value: string)
      modifies this`inputValue
      ensures name == Email ==> inputValue == old(inputValue).(email := value)
      ensures name == Password ==> inputValue == old(inputValue).(password := value)
      ensures name == Username ==> inputValue == old(inputValue).(username := value)
    {
      match name {
        case Email => inputValue := inputValue.(email := value);
        case Password => inputValue := inputValue.(password := value);
        case Username => inputValue := inputValue.(username := value);
      }
    }

    /**
     * `handleSubmit`: posts the form (returned as `sent`); a truthy `success`
     * shows the server's message and schedules navigation to '/' after
     * 1000 ms; a falsy one shows the message as an error; a request error
     * shows a fixed message. All three fields are cleared in every case.
     */
    method HandleSubmit(outcome: SubmitOutcome) returns (sent: SignupInput)
      modifies this
      ensures sent == old(inputValue)
      ensures inputValue == SignupInput("", "", "")
      ensures outcome.Replied? && outcome.success ==>
        toasts == old(toasts) + [SuccessToast(outcome.message)] && timers == old(timers) + [Timer(1000, "/")]
      ensures outcome.Replied? && !outcome.success ==>
        toasts == old(toasts) + [ErrorToast(outcome.message)] && timers == old(timers)
      ensures outcome.RequestFailed? ==>
        toasts == old(toasts) + [ErrorToast("Signup failed. Please try again.")] && timers == old(timers)
    {
      sent := inputValue;
      match outcome {
        case Replied(success, message) =>
          if success {
            toasts := toasts + [SuccessToast(message)];
            timers := timers + [Timer(RedirectDelayMs, HomeRoute)];
          } else {
            toasts := toasts + [ErrorToast(message)];
          }
        case RequestFailed =>
          toasts := toasts + [ErrorToast("Signup failed. Please try again.")];
      }
      inputValue := inputValue.(email := "", password := "", username := "");
    }
  }

  /**
   * Filling the three fields and submitting:
   * each typed value is sent, only a successful reply schedules navigation
   * home, and the form ends empty whatever the outcome.
   */
  method TypeAndSubmit(email: string, password: string, username: string, outcome: SubmitOutcome)
    returns (sent: SignupInput, after: SignupInput, scheduled: seq<Timer>, shown: Toast)
    ensures sent == SignupInput(email, password, username)
    ensures after == SignupInput("", "", "")
    ensures scheduled == if outcome.Replied? && outcome.success then [Timer(1000, "/")] else []
    ensures shown == match outcome
      case Replied(true, m) => SuccessToast(m)
      case Replied(false, m) => ErrorToast(m)
      case RequestFailed => ErrorToast("Signup failed. Please try again.")
  {
    var page := new Signup();
    page.HandleOnChange(Username, username);
    page.HandleOnChange(Email, email);
    page.HandleOnChange(Password, password);
    sent := page.HandleSubmit(outcome);
    after := page.inputValue;
    scheduled := page.timers;
    shown := page.toasts[0];
  }
}

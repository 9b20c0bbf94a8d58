/**
 * What the client pages share: the routes and redirect delay they use,
 * the notifications they raise, the timers they start, and the shape of a
 * form submission's outcome.
 */
module ClientCommon {

  const HomeRoute: string := "/"
  const LoginRoute: string := "/login"

  /** Delay before a scheduled redirect, in milliseconds. */
  const RedirectDelayMs: nat := 1000

  /** A toast notification: `toast.success(msg)` or `toast.error(msg)`. */
  datatype Toast = SuccessToast(message: string) | ErrorToast(message: string)

  /** `setTimeout(() => navigate(path), delayMs)`, not yet fired. */
  datatype Timer = Timer(delayMs: nat, path: string)

  /**
   * How a form's POST ended: a reply whose `success` was truthy or not,
   * with its `message`; or a rejected request (network error or an error
   * status the HTTP client throws on).
   */
  datatype SubmitOutcome = Replied(success: bool, message: string) | RequestFailed
}

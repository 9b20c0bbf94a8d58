/**
 * The `Home` page: on mount it asks the server to verify the session
 * cookie, then shows the welcome view or schedules a redirect to login.
 */
module HomePage {
  import opened ClientCommon
  import opened AuthMiddleware

  /** How the verification request ended: the server's answer, or a thrown request error. */
  datatype VerifyOutcome = Answered(response: VerifyResponse) | VerifyFailed

  /** What the page renders. */
  datatype View = LoadingView | WelcomeView(username: string)

  class Home {
    var username: string
    var isLoading: bool
    var toasts: seq<Toast>
    var timers: seq<Timer>
    var navigations: seq<string>

    /** The initial state: loading, no username, nothing raised or scheduled. */
    constructor ()
      ensures username == "" && isLoading
      ensures toasts == [] && timers == [] && navigations == []
    {
      username, isLoading := "", true;
      toasts, timers, navigations := [], [], [];
    }

    /** "Loading..." while loading, otherwise the welcome line with the username. */
    function Render(): (v: View)
      reads this
      ensures v.LoadingView? <==> isLoading
      ensures v.WelcomeView? ==> v.username == username
    {
      if isLoading then LoadingView else WelcomeView(username)
    }

    /**
     * `verifyCookie`: every outcome ends loading. A true status stores the
     * username; a false status or a request error raises its own message
     * and schedules a redirect to '/login' after 1000 ms.
     */
    method VerifyCookie(outcome: VerifyOutcome)
      modifies this`username, this`isLoading, this`toasts, this`timers
      ensures !isLoading
      ensures outcome.Answered? && outcome.response.status ==>
        && username == (if outcome.response.user.Some? then outcome.response.user.value else "")
        && toasts == old(toasts) && timers == old(timers)
      ensures outcome.Answered? && !outcome.response.status ==>
        && username == old(username)
        && toasts == old(toasts) + [ErrorToast("Session expired. Please login again.")]
        && timers == old(timers) + [Timer(1000, "/login")]
      ensures outcome.VerifyFailed? ==>
        && username == old(username)
        && toasts == old(toasts) + [ErrorToast("Authentication failed. Please login again.")]
        && timers == old(timers) + [Timer(1000, "/login")]
    {
      match outcome
      case Answered(response) =>
        if response.status {
          // an undefined `user` renders as nothing, like ""
          username := if response.user.Some? then response.user.value else "";
          isLoading := false;
        } else {
          toasts := toasts + [ErrorToast("Session expired. Please login again.")];
          isLoading := false;
          timers := timers + [Timer(RedirectDelayMs, LoginRoute)];
        }
      case VerifyFailed =>
        toasts := toasts + [ErrorToast("Authentication failed. Please login again.")];
        isLoading := false;
        timers := timers + [Timer(RedirectDelayMs, LoginRoute)];
    }

    /** `Logout`: navigates to '/login' and nothing else; no cookie or state is cleared. */
    method Logout()
      modifies this`navigations
      ensures navigations == old(navigations) + ["/login"]
    {
      navigations := navigations + [LoginRoute];
    }
  }

  /**
   * A mount followed by verification: "Loading..." first; afterwards the
   * welcome view, with the server's username when the session is valid and
   * with an empty name (until the redirect fires) when it is not.
   */
  method MountAndVerify(outcome: VerifyOutcome) returns (before: View, after: View, scheduled: seq<Timer>)
    ensures before == LoadingView
    ensures outcome.Answered? && outcome.response.status && outcome.response.user.Some? ==>
      after == WelcomeView(outcome.response.user.value) && scheduled == []
    ensures !(outcome.Answered? && outcome.response.status) ==>
      after == WelcomeView("") && scheduled == [Timer(1000, "/login")]
  {
    var home := new Home();
    before := home.Render();
    home.VerifyCookie(outcome);
    after := home.Render();
    scheduled := home.timers;
  }
}

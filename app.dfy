/**
 * The application shell's navigation and its administrator gate: asking for the admin view without being
 * authenticated opens a password prompt instead, and only the correct password authenticates and opens
 * the admin view. Authentication, once gained, is never revoked, so the admin view is never shown to an
 * unauthenticated user.
 */
module App {
  import opened Records

  /** The password the gate compares the input with. */
  const AdminPassword := "admin"
  /** The message shown after a wrong password ("the password is incorrect."). */
  const WrongPassword := "كلمة المرور غير صحيحة."

  /** The part of the shell's state that navigation and the gate read and write. */
  datatype State = State(
    view: View,
    isAdminAuthenticated: bool,
    showPasswordPrompt: bool,
    passwordInput: string,
    passwordError: string)

  /** The user's actions: a sidebar entry, typing in the password box, the login button (or Enter), and
      closing the prompt. */
  datatype Event = SetView(newView: View) | TypePassword(text: string) | AdminLogin | ClosePrompt

  /** The state the shell starts in: the dashboard, unauthenticated, no prompt. */
  const Initial := State(DashboardView, false, false, "", "")

  /** The admin view is shown only to an authenticated user. */
  predicate AdminGuarded(s: State) {
    s.view == AdminView ==> s.isAdminAuthenticated
  }

  /** The effect of one user action: `handleSetView`, the input's `onChange`, `handleAdminLogin` and the
      prompt's `onClose`. No action revokes authentication or breaks the guard. */
  function Step(s: State, e: Event): (r: State)
    ensures s.isAdminAuthenticated ==> r.isAdminAuthenticated
    ensures AdminGuarded(s) ==> AdminGuarded(r)
    ensures r.isAdminAuthenticated && !s.isAdminAuthenticated ==> e == AdminLogin && s.passwordInput == AdminPassword
  {
    match e
    case SetView(v) =>
      if v == AdminView && !s.isAdminAuthenticated then s.(showPasswordPrompt := true) else s.(view := v)
    case TypePassword(text) => s.(passwordInput := text)
    case AdminLogin =>
      if s.passwordInput == AdminPassword then
        s.(isAdminAuthenticated := true, showPasswordPrompt := false, view := AdminView, passwordInput := "",
           passwordError := "")
      else s.(passwordError := WrongPassword)
    case ClosePrompt => s.(showPasswordPrompt := false)
  }

  /** The state after a sequence of actions. */
  function Run(s: State, events: seq<Event>): State {
    if events == [] then s else Step(Run(s, events[..|events| - 1]), events[|events| - 1])
  }

  /** Whatever the user does, the admin view is shown only to an authenticated user, and authentication
      is never revoked. */
  lemma {:induction false} RunKeepsGuard(s: State, events: seq<Event>)
    requires AdminGuarded(s)
    ensures AdminGuarded(Run(s, events))
    ensures s.isAdminAuthenticated ==> Run(s, events).isAdminAuthenticated
  {
    if events != [] {
      RunKeepsGuard(s, events[..|events| - 1]);
    }
  }

  /** From the initial state, whatever the user does, the admin view is never shown unauthenticated. */
  lemma AdminViewOnlyAuthenticated(events: seq<Event>)
    ensures Run(Initial, events).view == AdminView ==> Run(Initial, events).isAdminAuthenticated
  {
    RunKeepsGuard(Initial, events);
  }

  /** From the initial state, the shell is authenticated only after a login attempt made while the input
      held the correct password. */
  lemma {:induction false} AuthenticatedOnlyByPassword(events: seq<Event>)
    requires Run(Initial, events).isAdminAuthenticated
    ensures exists k :: 0 <= k < |events| && events[k] == AdminLogin && Run(Initial, events[..k]).passwordInput == AdminPassword
  {
    var init := events[..|events| - 1];
    if Run(Initial, init).isAdminAuthenticated {
      AuthenticatedOnlyByPassword(init);
      var k :| 0 <= k < |init| && init[k] == AdminLogin && Run(Initial, init[..k]).passwordInput == AdminPassword;
      assert init[..k] == events[..k];
    } else {
      assert events[..|events| - 1] == init;
    }
  }

  /** The shell's navigation and gate state, updated in place by its handlers. */
  class AppComponent {
    var view: View
    var isAdminAuthenticated: bool
    var showPasswordPrompt: bool
    var passwordInput: string
    var passwordError: string

    function Snapshot(): State
      reads this
    {
      State(view, isAdminAuthenticated, showPasswordPrompt, passwordInput, passwordError)
    }

    ghost predicate Valid()
      reads this
    {
      AdminGuarded(Snapshot())
    }

    constructor ()
      ensures Valid() && Snapshot() == Initial
    {
      view, isAdminAuthenticated, showPasswordPrompt, passwordInput, passwordError := DashboardView, false, false, "", "";
    }

    /** `handleSetView`: the admin view while unauthenticated opens the prompt and keeps the current view;
        any other request, the admin view when authenticated included, switches to it. */
    method HandleSetView(newView: View)
      requires Valid()
      modifies this
      ensures Valid() && Snapshot() == Step(old(Snapshot()), SetView(newView))
      ensures newView == AdminView && !old(isAdminAuthenticated) ==>
        showPasswordPrompt && view == old(view) && isAdminAuthenticated == old(isAdminAuthenticated)
      ensures !(newView == AdminView && !old(isAdminAuthenticated)) ==>
        view == newView && showPasswordPrompt == old(showPasswordPrompt)
      ensures passwordInput == old(passwordInput) && passwordError == old(passwordError)
      ensures isAdminAuthenticated == old(isAdminAuthenticated)
    {
      if newView == AdminView && !isAdminAuthenticated {
        showPasswordPrompt := true;
      } else {
        view := newView;
      }
    }

    /** The password box's `onChange`. */
    method SetPasswordInput(text: string)
      requires Valid()
      modifies this`passwordInput
      ensures Valid() && Snapshot() == Step(old(Snapshot()), TypePassword(text))
      ensures passwordInput == text
    {
      passwordInput := text;
    }

    /** `handleAdminLogin`: the correct password authenticates, hides the prompt, opens the admin view and
        clears the input and the error; a wrong one only sets the error message. */
    method HandleAdminLogin()
      requires Valid()
      modifies this
      ensures Valid() && Snapshot() == Step(old(Snapshot()), AdminLogin)
      ensures old(passwordInput) == AdminPassword ==>
        isAdminAuthenticated && !showPasswordPrompt && view == AdminView && passwordInput == "" && passwordError == ""
      ensures old(passwordInput) != AdminPassword ==>
        passwordError == WrongPassword && view == old(view) && isAdminAuthenticated == old(isAdminAuthenticated) &&
        showPasswordPrompt == old(showPasswordPrompt) && passwordInput == old(passwordInput)
    {
      if passwordInput == AdminPassword {
        isAdminAuthenticated := true;
        showPasswordPrompt := false;
        view := AdminView;
        passwordInput := "";
        passwordError := "";
      } else {
        passwordError := WrongPassword;
      }
    }

    /** The prompt's `onClose`: hides the prompt and changes nothing else. */
    method HandleClosePrompt()
      requires Valid()
      modifies this`showPasswordPrompt
      ensures Valid() && Snapshot() == Step(old(Snapshot()), ClosePrompt)
      ensures !showPasswordPrompt
    {
      showPasswordPrompt := false;
    }
  }
}

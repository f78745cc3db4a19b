/** The sign-in / sign-up dialog: the username and display name derived from
    the form, the sign-up sequence, the error and loading state, and the
    login/signup toggle. */
module AuthModal {
  import opened Text
  import opened Common

  const AuthFallback: string := "An error occurred"
  const WelcomeBackMessage: string := "Welcome back to the realm of spooky stories! \U{1F383}"
  const WelcomeMessage: string :=
    "Welcome to our haunted community! Check your email to confirm your account. \U{1F47B}"

  datatype View = Login | Signup

  /** The view the toggle link switches to. */
  function Toggled(v: View): (w: View)
    ensures w != v
  {
    if v == Login then Signup else Login
  }

  lemma ToggledTwice(v: View)
    ensures Toggled(Toggled(v)) == v
  {
  }

  /** `getUsername(email)`: `email.split('@')[0]`. */
  function GetUsername(email: string): string
  {
    BeforeFirst(email, '@')
  }

  /** The username is the part of the email before its first '@' (all of it
      when there is none): a prefix of the email with no '@' in it, and for a
      `local@domain` address it is `local`. */
  lemma GetUsernameSpec(email: string)
    ensures var u := GetUsername(email);
            && |u| <= |email| && u == email[..|u|]
            && '@' !in u
            && ('@' !in email ==> u == email)
            && (|u| < |email| ==> email[|u|] == '@')
  {
    BeforeFirstSpec(email, '@');
  }

  lemma GetUsernameOfAddress(local: string, domain: string)
    requires '@' !in local
    ensures GetUsername(local + "@" + domain) == local
  {
    BeforeFirstJoin(local, '@', domain);
  }

  /** `displayName.trim() || username`. */
  function FinalDisplayName(displayName: string, email: string): string
  {
    var trimmed := Trim(displayName);
    if trimmed != [] then trimmed else GetUsername(email)
  }

  /** A display name that is not blank is used trimmed; a blank one gives way
      to the username. */
  lemma FinalDisplayNameSpec(displayName: string, email: string)
    ensures var n := FinalDisplayName(displayName, email);
            && (IsBlank(displayName) ==> n == GetUsername(email))
            && (!IsBlank(displayName) ==>
                  n == Trim(displayName) && n != [] && !IsSpace(n[0]) && !IsSpace(n[|n| - 1]))
  {
    TrimSpec(displayName);
  }

  /** An auth or storage call the dialog makes. */
  datatype AuthCall =
    | SignIn(email: string, password: string)
    | SignUp(email: string, password: string, displayName: string)
    | UpdateProfile(userId: string, username: string, displayName: string)

  /** What `auth.signUp` hands back: its error, and the new user's id when
      it returns one. */
  datatype SignUpReply = SignUpReply(error: Option<Fault>, userId: Option<string>)

  class Dialog {
    var view: View
    var email: string
    var password: string
    var displayName: string
    var loading: bool
    var error: Option<string>

    constructor(defaultView: View)
      ensures view == defaultView && email == [] && password == [] && displayName == []
      ensures !loading && error.None?
    {
      view, email, password, displayName := defaultView, [], [], [];
      loading, error := false, None;
    }

    /** `handleAuth`, with the three remote calls given as oracles. `calls`
        lists the calls made, in order; `closed` tells whether the dialog
        asked to be closed. */
    method HandleAuth(signIn: (string, string) -> Option<Fault>,
                      signUp: (string, string, string) -> SignUpReply,
                      updateProfile: (string, string, string) -> Option<Fault>)
      returns (t: Toast, calls: seq<AuthCall>, closed: bool)
      modifies this
      ensures !loading
      ensures view == old(view) && email == old(email) && password == old(password)
      ensures displayName == old(displayName)
      ensures closed <==> error.None?
      ensures closed ==> t.Success?
      ensures !closed ==> t == Error(error.value)
      ensures old(view) == Login ==>
              && calls == [SignIn(email, password)]
              && var e := signIn(email, password);
                 && (e.None? ==> closed && t == Success(WelcomeBackMessage))
                 && (e.Some? ==> error == Some(ShownMessage(e.value, AuthFallback)))
      ensures old(view) == Signup ==>
              var name := FinalDisplayName(displayName, email);
              var reply := signUp(email, password, name);
              && |calls| >= 1 && calls[0] == SignUp(email, password, name)
              && (reply.error.Some? ==> calls == [SignUp(email, password, name)]
                                        && error == Some(ShownMessage(reply.error.value, AuthFallback)))
              && (reply.error.None? ==> closed && t == Success(WelcomeMessage))
              && (reply.error.None? && reply.userId.Some?
                  ==> calls == [SignUp(email, password, name),
                                UpdateProfile(reply.userId.value, GetUsername(email), name)])
              && (reply.error.None? && reply.userId.None? ==> calls == [SignUp(email, password, name)])
    {
      loading := true;
      error := None;
      calls := [];
      var thrown: Option<Fault> := None;
      if view == Login {
        calls := calls + [SignIn(email, password)];
        thrown := signIn(email, password);
        if thrown.None? {
          t := Success(WelcomeBackMessage);
        }
      } else {
        var username := GetUsername(email);
        var finalDisplayName := FinalDisplayName(displayName, email);
        calls := calls + [SignUp(email, password, finalDisplayName)];
        var reply := signUp(email, password, finalDisplayName);
        thrown := reply.error;
        if thrown.None? {
          if reply.userId.Some? {
            calls := calls + [UpdateProfile(reply.userId.value, username, finalDisplayName)];
            // A failed profile update is only logged.
            var _ := updateProfile(reply.userId.value, username, finalDisplayName);
          }
          t := Success(WelcomeMessage);
        }
      }
      if thrown.Some? {
        var message := ShownMessage(thrown.value, AuthFallback);
        error := Some(message);
        t := Error(message);
        closed := false;
      } else {
        closed := true;
      }
      loading := false;
    }

    /** The link under the form switches view and clears the error. */
    method ToggleView()
      modifies this
      ensures view == Toggled(old(view)) && error.None?
      ensures email == old(email) && password == old(password)
      ensures displayName == old(displayName) && loading == old(loading)
    {
      view := if view == Login then Signup else Login;
      error := None;
    }
  }

  /** Toggling twice restores the view and leaves the error cleared. */
  method ToggleTwice(d: Dialog)
    modifies d
    ensures d.view == old(d.view) && d.error.None?
  {
    d.ToggleView();
    d.ToggleView();
    ToggledTwice(old(d.view));
  }
}

/** The component's session state and the handlers that move it: submitting the form
    (`handleLogin` / `handleRegister` up to the timer), the timer callback that signs
    the user in and records a block, `handleLogout`, and the dashboard guard. */
module Session {
  import opened JsText
  import opened AuthForm
  import opened AuditChain

  datatype Option<T> = None | Some(value: T)

  /** The `user` object built by the timer callback. */
  datatype User = User(id: Text, username: Text, email: Text, role: Text, lastLogin: Text)

  /** `authStatus.type`; `Blank` is the initial `''`. */
  datatype StatusKind = Blank | Info | Success | Error

  datatype AuthStatus = AuthStatus(success: bool, message: string, kind: StatusKind)

  datatype App = App(loggedIn: bool, currentUser: Option<User>, tab: Tab, form: FormData,
                     status: AuthStatus, chain: seq<Block>)

  /** The outside readings of one callback: the random user id and the clock reading
      stored as `lastLogin`, next to those the new block needs. */
  datatype Environment = Environment(userId: Text, lastLogin: Text, stamp: Stamp)

  const USER_ROLE: Text := FromAscii("user")

  /** The dashboard is rendered only when the flag is set and a user is present. */
  function ShowsDashboard(app: App): (shown: bool)
    ensures shown ==> app.loggedIn && app.currentUser.Some?
    ensures app.loggedIn && app.currentUser.Some? ==> shown
  {
    app.loggedIn && app.currentUser.Some?
  }

  /** The state after mounting: logged out, login tab, empty form, blank status, and
      the list the mount effect installed. */
  function Initial(chain: seq<Block>): (app: App)
    ensures !ShowsDashboard(app)
    ensures ValidateForm(app.form, app.tab) == Rejected(MISSING_CREDENTIALS)
    ensures app.chain == chain
  {
    App(false, None, Login, EMPTY_FORM, AuthStatus(false, "", Blank), chain)
  }

  function PendingMessage(tab: Tab): string {
    match tab
    case Login => "Authenticating..."
    case Register => "Creating account..."
  }

  function DoneMessage(tab: Tab): string {
    match tab
    case Login => "Authentication successful!"
    case Register => "Account created successfully!"
  }

  /** The handler the form's submit runs for a tab, as the action it records. */
  function HandlerAction(tab: Tab): (a: Action)
    ensures ActionLabel(a) == if tab.Login? then FromAscii("User Login") else FromAscii("New Account Created")
  {
    match tab
    case Login => UserLogin
    case Register => NewAccountCreated
  }

  /** The synchronous part of a submit handler. A rejected form only shows its error;
      an accepted one shows the pending message (and schedules the callback). */
  function Submit(app: App): (r: App)
    ensures r == app.(status := r.status)
    ensures ValidateForm(app.form, app.tab).Rejected? ==>
              r.status == AuthStatus(false, ValidateForm(app.form, app.tab).message, Error)
    ensures ValidateForm(app.form, app.tab) == Accepted ==>
              r.status == AuthStatus(true, PendingMessage(app.tab), Info)
  {
    match ValidateForm(app.form, app.tab)
    case Rejected(msg) => app.(status := AuthStatus(false, msg, Error))
    case Accepted => app.(status := AuthStatus(true, PendingMessage(app.tab), Info))
  }

  /** The timer callback. `tab` and `form` are the values the handler closed over and
      `capturedLength` the list length it saw; the list itself is the current one. */
  function Complete(app: App, tab: Tab, form: FormData, capturedLength: nat, env: Environment): (r: App)
    ensures ShowsDashboard(r)
    ensures r.currentUser.value == User(env.userId, form.username, form.email, USER_ROLE, env.lastLogin)
    ensures r.status == AuthStatus(true, DoneMessage(tab), Success)
    ensures r.chain == RecordAction(app.chain, HandlerAction(tab), capturedLength, form.username, env.stamp)
    ensures r.tab == app.tab && r.form == app.form
  {
    var user := User(env.userId, form.username, form.email, USER_ROLE, env.lastLogin);
    app.(loggedIn := true,
         currentUser := Some(user),
         status := AuthStatus(true, DoneMessage(tab), Success),
         chain := RecordAction(app.chain, HandlerAction(tab), capturedLength, form.username, env.stamp))
  }

  /** `handleLogout`: clear the flag and the user, report it, keep everything else. */
  function Logout(app: App): (r: App)
    ensures !ShowsDashboard(r)
    ensures !r.loggedIn && r.currentUser == None
    ensures r.status == AuthStatus(false, "Logged out successfully", Info)
    ensures r.chain == app.chain && r.tab == app.tab && r.form == app.form
  {
    app.(loggedIn := false, currentUser := None,
         status := AuthStatus(false, "Logged out successfully", Info))
  }

  /** A full round on an accepted form: submit, the timer fires before anything else
      happens, then logout. The user is back at the form and the list has grown by
      exactly the one block the handler recorded, whose id is the new length. */
  lemma SignInThenOut(app: App, env: Environment)
    requires ValidateForm(app.form, app.tab) == Accepted
    ensures var pending := Submit(app);
            var done := Complete(pending, app.tab, app.form, |app.chain|, env);
            var out := Logout(done);
            && ShowsDashboard(done)
            && !ShowsDashboard(out)
            && |out.chain| == |app.chain| + 1
            && out.chain[1..] == app.chain
            && out.chain[0].id == |out.chain|
            && out.chain[0].user == app.form.username
            && out.chain[0].action == ActionLabel(HandlerAction(app.tab))
  {
  }

  /** A rejected submission reaches neither the session nor the list. */
  lemma RejectedSubmitKeepsSession(app: App)
    requires ValidateForm(app.form, app.tab).Rejected?
    ensures var r := Submit(app);
            && r.loggedIn == app.loggedIn && r.currentUser == app.currentUser
            && r.chain == app.chain && r.status.kind == Error && !r.status.success
  {
  }
}

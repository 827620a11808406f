/**
 * The application shell: session (token and user), the selected view and
 * the connectivity flag, driven by login, logout, menu selection and the
 * browser's `online`/`offline` events. Browser storage is a key-to-value map.
 */
module App {
  import opened Wrappers

  /** The signed-in user as the login endpoint returns it. */
  datatype User = User(username: string, role: string)

  /**
   * A storage entry: plain text (the token), or the JSON text of a user
   * object, written by `JSON.stringify` and read back by `JSON.parse`.
   */
  datatype Stored = Text(text: string) | UserJson(user: User)

  type Storage = map<string, Stored>

  const TokenKey := "token"
  const UserKey := "user"

  /** The six screens of the navigation menu, in menu order. */
  datatype View = DashboardView | WorkOrdersView | ScheduleView | TechniciansView | ClientsView | MaterialsView

  /** The identifier `setCurrentView` stores for each screen. */
  function ViewName(v: View): string {
    match v
    case DashboardView => "dashboard"
    case WorkOrdersView => "work-orders"
    case ScheduleView => "schedule"
    case TechniciansView => "technicians"
    case ClientsView => "clients"
    case MaterialsView => "materials"
  }

  const Menu: seq<View> := [DashboardView, WorkOrdersView, ScheduleView, TechniciansView, ClientsView, MaterialsView]

  const DefaultView := ViewName(DashboardView)

  datatype AppState = AppState(
    token: Option<string>,
    user: Option<User>,
    currentView: string,
    isOnline: bool,
    storage: Storage)

  /** `localStorage.getItem('token')`. */
  function StoredToken(storage: Storage): Option<string> {
    if TokenKey in storage && storage[TokenKey].Text? then Some(storage[TokenKey].text) else None
  }

  /** `JSON.parse(localStorage.getItem('user') || 'null')`. */
  function StoredUser(storage: Storage): Option<User> {
    if UserKey in storage && storage[UserKey].UserJson? then Some(storage[UserKey].user) else None
  }

  /** The state on start-up: session read from storage, the dashboard selected, `navigator.onLine` given. */
  function Init(storage: Storage, navigatorOnLine: bool): (s: AppState)
    ensures s.currentView == DefaultView
    ensures s.storage == storage && s.isOnline == navigatorOnLine
    ensures TokenKey !in storage ==> s.token == None
    ensures UserKey !in storage ==> s.user == None
    ensures TokenKey in storage && storage[TokenKey].Text? ==> s.token == Some(storage[TokenKey].text)
    ensures UserKey in storage && storage[UserKey].UserJson? ==> s.user == Some(storage[UserKey].user)
  {
    AppState(StoredToken(storage), StoredUser(storage), DefaultView, navigatorOnLine, storage)
  }

  /**
   * `handleLogin`: the session holds the new token and user and storage
   * keeps both under `token` and `user`; every other storage entry, the
   * selected view and the connectivity flag are untouched.
   */
  function Login(s: AppState, token: string, user: User): (s': AppState)
    ensures s'.token == Some(token) && s'.user == Some(user)
    ensures s'.currentView == s.currentView && s'.isOnline == s.isOnline
    ensures s'.storage.Keys == s.storage.Keys + {TokenKey, UserKey}
    ensures s'.storage[TokenKey] == Text(token) && s'.storage[UserKey] == UserJson(user)
    ensures forall k :: k in s.storage && k != TokenKey && k != UserKey ==> s'.storage[k] == s.storage[k]
  {
    s.(token := Some(token), user := Some(user),
       storage := s.storage[TokenKey := Text(token)][UserKey := UserJson(user)])
  }

  /**
   * `handleLogout`: the session is cleared, both storage keys are removed
   * with every other entry kept, and the selected view is reset to the
   * dashboard.
   */
  function Logout(s: AppState): (s': AppState)
    ensures s'.token == None && s'.user == None
    ensures s'.currentView == DefaultView && s'.isOnline == s.isOnline
    ensures s'.storage.Keys == s.storage.Keys - {TokenKey, UserKey}
    ensures forall k :: k in s'.storage ==> s'.storage[k] == s.storage[k]
  {
    s.(token := None, user := None, storage := s.storage - {TokenKey, UserKey}, currentView := DefaultView)
  }

  /** A menu click: `setCurrentView(item.view)`. */
  function SelectView(s: AppState, v: View): (s': AppState)
    ensures s'.currentView == ViewName(v)
    ensures s' == s.(currentView := s'.currentView)
  {
    s.(currentView := ViewName(v))
  }

  datatype Event =
    | LoggedIn(token: string, user: User)
    | LoggedOut
    | Selected(view: View)
    | WentOnline
    | WentOffline

  /** The state after one event; `online` and `offline` set the flag and change nothing else. */
  function Step(s: AppState, e: Event): (s': AppState)
    ensures e.WentOnline? ==> s' == s.(isOnline := true)
    ensures e.WentOffline? ==> s' == s.(isOnline := false)
  {
    match e
    case LoggedIn(t, u) => Login(s, t, u)
    case LoggedOut => Logout(s)
    case Selected(v) => SelectView(s, v)
    case WentOnline => s.(isOnline := true)
    case WentOffline => s.(isOnline := false)
  }

  /** What the app renders: the login form, or the shell with its badge, menu highlight and main area. */
  datatype Screen =
    | LoginScreen
    | Shell(offlineBadge: bool, highlighted: seq<View>, main: seq<View>)

  /** `!token`: a missing or empty token sends the user to the login form. */
  predicate SignedIn(s: AppState) {
    s.token.Some? && s.token.value != ""
  }

  /** The screens whose identifier equals `current`, in menu order. */
  function ViewsNamed(views: seq<View>, current: string): (r: seq<View>)
    ensures forall v :: v in r <==> v in views && ViewName(v) == current
    ensures |r| == 0 <==> forall v :: v in views ==> ViewName(v) != current
  {
    if |views| == 0 then []
    else
      var rest := ViewsNamed(views[1..], current);
      if ViewName(views[0]) == current then [views[0]] + rest else rest
  }

  /**
   * The login form without a usable token; otherwise the shell, with the
   * badge when offline and, both in the menu highlight and in the main area,
   * exactly the screens named by `currentView`.
   */
  function Render(s: AppState): (r: Screen)
    ensures r.LoginScreen? <==> !SignedIn(s)
    ensures r.Shell? ==> r.offlineBadge == !s.isOnline && r.highlighted == r.main
    ensures r.Shell? ==> forall v :: v in r.main <==> v in Menu && ViewName(v) == s.currentView
  {
    if !SignedIn(s) then LoginScreen
    else Shell(!s.isOnline, ViewsNamed(Menu, s.currentView), ViewsNamed(Menu, s.currentView))
  }

  /** The login form shows exactly when there is no usable token; the badge exactly when offline. */
  lemma RenderBranches(s: AppState)
    ensures Render(s) == LoginScreen <==> s.token == None || s.token == Some("")
    ensures Render(s).Shell? ==> (Render(s).offlineBadge <==> !s.isOnline)
  {
  }

  /**
   * Connectivity events never switch between the login form and the shell;
   * in the shell the badge appears after `offline` and disappears after
   * `online`.
   */
  lemma ConnectivityBadge(s: AppState)
    ensures Render(Step(s, WentOffline)).LoginScreen? == Render(s).LoginScreen?
    ensures Render(Step(s, WentOnline)).LoginScreen? == Render(s).LoginScreen?
    ensures SignedIn(s) ==> Render(Step(s, WentOffline)).offlineBadge
    ensures SignedIn(s) ==> !Render(Step(s, WentOnline)).offlineBadge
  {
  }

  /** The selected view is always one of the six screens. */
  ghost predicate ViewInvariant(s: AppState) {
    exists v :: ViewName(v) == s.currentView
  }

  lemma InitEstablishes(storage: Storage, navigatorOnLine: bool)
    ensures ViewInvariant(Init(storage, navigatorOnLine))
  {
    assert ViewName(DashboardView) == Init(storage, navigatorOnLine).currentView;
  }

  lemma StepPreserves(s: AppState, e: Event)
    requires ViewInvariant(s)
    ensures ViewInvariant(Step(s, e))
  {
    match e
    case LoggedOut => assert ViewName(DashboardView) == Step(s, e).currentView;
    case Selected(v) => assert ViewName(v) == Step(s, e).currentView;
    case _ =>
  }

  /** Distinct screens have distinct identifiers. */
  lemma ViewNameInjective(a: View, b: View)
    ensures ViewName(a) == ViewName(b) <==> a == b
  {
  }

  /**
   * Whenever the selected view is one of the six, the shell renders exactly
   * that one screen in its main area and highlights exactly that menu entry.
   */
  lemma ExactlyOneView(s: AppState, v: View)
    requires ViewName(v) == s.currentView
    requires SignedIn(s)
    ensures Render(s).main == [v]
    ensures Render(s).highlighted == [v]
  {
    assert v in Menu by {
      match v
      case DashboardView => assert Menu[0] == v;
      case WorkOrdersView => assert Menu[1] == v;
      case ScheduleView => assert Menu[2] == v;
      case TechniciansView => assert Menu[3] == v;
      case ClientsView => assert Menu[4] == v;
      case MaterialsView => assert Menu[5] == v;
    }
    ViewsNamedSingle(Menu, v);
  }

  /** Over a menu without repeats, exactly the entry `v` carries `v`'s identifier. */
  lemma {:induction false} ViewsNamedSingle(views: seq<View>, v: View)
    requires forall i, j :: 0 <= i < j < |views| ==> views[i] != views[j]
    requires v in views
    ensures ViewsNamed(views, ViewName(v)) == [v]
  {
    var c := ViewName(v);
    if views[0] == v {
      forall w | w in views[1..]
        ensures ViewName(w) != c
      {
        ViewNameInjective(w, v);
      }
    } else {
      ViewNameInjective(views[0], v);
      ViewsNamedSingle(views[1..], v);
    }
  }

  /** Selecting the selected view again changes nothing. */
  lemma SelectViewIdempotent(s: AppState, v: View)
    ensures SelectView(SelectView(s, v), v) == SelectView(s, v)
  {
  }

  /** After a login, a reload restores the same session from storage. */
  lemma LoginSurvivesReload(s: AppState, token: string, user: User, navigatorOnLine: bool)
    ensures Init(Login(s, token, user).storage, navigatorOnLine).token == Some(token)
    ensures Init(Login(s, token, user).storage, navigatorOnLine).user == Some(user)
  {
  }

  /** After a logout, a reload starts signed out on the login form. */
  lemma LogoutSurvivesReload(s: AppState, navigatorOnLine: bool)
    ensures Init(Logout(s).storage, navigatorOnLine).token == None
    ensures Init(Logout(s).storage, navigatorOnLine).user == None
    ensures Render(Init(Logout(s).storage, navigatorOnLine)) == LoginScreen
  {
  }

  /** A logout after a login leaves storage as it was, less the two session keys. */
  lemma LoginLogoutStorage(s: AppState, token: string, user: User)
    ensures Logout(Login(s, token, user)).storage == s.storage - {TokenKey, UserKey}
  {
  }
}

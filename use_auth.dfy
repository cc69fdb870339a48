/**
 * The sign-in state hook (`useAuth.ts`): the state held by the app, its copy
 * under `studyspark-auth` in `localStorage`, and the restore step that reads
 * the copy back when the app mounts. `JSON.stringify` and `JSON.parse` are
 * parameters (`parse` answers `None` where `JSON.parse` throws).
 */
module UseAuth {
  import opened Wrappers
  import Members
  import BrowserStorage
  import RoleAuth

  type Items = map<string, string>

  datatype UserRole = Student | Parent | Teacher

  datatype AuthState = AuthState(isAuthenticated: bool, user: Option<Members.User>, role: Option<UserRole>)

  /** The state before anyone signs in, and after `logout`. */
  const SignedOut := AuthState(false, None, None)

  /** The `localStorage` key of the saved state. */
  const AuthKey := "studyspark-auth"

  /** The state `login(user)` moves to: signed in, no role chosen yet. */
  function LoggedIn(user: Members.User): (s: AuthState)
    ensures s.isAuthenticated && s.user == Some(user) && s.role.None?
  {
    AuthState(true, Some(user), None)
  }

  /**
   * The mount-time restore: a saved, non-empty copy that parses is adopted as
   * it is; one that does not parse is removed and the state kept. The copy is
   * never written back.
   */
  function Restored(s: AuthState, items: Items, parse: string -> Option<AuthState>): (AuthState, Items) {
    if AuthKey in items && items[AuthKey] != "" then
      match parse(items[AuthKey])
      case Some(saved) => (saved, items)
      case None => (s, items - {AuthKey})
    else (s, items)
  }

  /** The hook: its state, and the storage it persists to. */
  class AuthHook {
    var authState: AuthState
    const local: BrowserStorage.Storage

    constructor (storage: BrowserStorage.Storage)
      ensures authState == SignedOut && local == storage
    {
      authState := SignedOut;
      local := storage;
    }

    /** The `useEffect` run once on mount. */
    method Restore(parse: string -> Option<AuthState>)
      modifies this, local
      ensures (authState, local.items) == Restored(old(authState), old(local.items), parse)
    {
      var saved := local.GetItem(AuthKey);
      if saved.Some? && saved.value != "" {
        match parse(saved.value)
        case Some(parsed) =>
          authState := parsed;
        case None =>
          local.RemoveItem(AuthKey);
      }
    }

    /** `login(user)`: the new state is held and saved. */
    method Login(user: Members.User, stringify: AuthState -> string)
      modifies this, local
      ensures authState == LoggedIn(user)
      ensures local.items == old(local.items)[AuthKey := stringify(authState)]
    {
      var next := AuthState(true, Some(user), None);
      authState := next;
      local.SetItem(AuthKey, stringify(next));
    }

    /** `selectRole(role)`: only the role changes; the new state is held and saved. */
    method SelectRole(role: UserRole, stringify: AuthState -> string)
      modifies this, local
      ensures authState == old(authState).(role := Some(role))
      ensures local.items == old(local.items)[AuthKey := stringify(authState)]
    {
      var next := authState.(role := Some(role));
      authState := next;
      local.SetItem(AuthKey, stringify(next));
    }

    /** `logout()`: back to the signed-out state, and the saved copy is removed. */
    method Logout()
      modifies this, local
      ensures authState == SignedOut
      ensures local.items == old(local.items) - {AuthKey}
    {
      authState := SignedOut;
      local.RemoveItem(AuthKey);
    }
  }

  /**
   * Whatever `login` or `selectRole` saved comes back on the next mount,
   * whenever `JSON.parse` inverts `JSON.stringify` on it.
   */
  lemma RestoreAfterSave(current: AuthState, saved: AuthState, items: Items,
                         stringify: AuthState -> string, parse: string -> Option<AuthState>)
    requires stringify(saved) != "" && parse(stringify(saved)) == Some(saved)
    ensures Restored(current, items[AuthKey := stringify(saved)], parse) == (saved, items[AuthKey := stringify(saved)])
  {
  }

  /** After `logout` the next mount stays signed out and writes nothing. */
  lemma RestoreAfterLogout(items: Items, parse: string -> Option<AuthState>)
    ensures Restored(SignedOut, items - {AuthKey}, parse) == (SignedOut, items - {AuthKey})
  {
  }

  /** Restoring twice is restoring once: a failed parse removes the copy, a good one leaves it. */
  lemma RestoreIdempotent(s: AuthState, items: Items, parse: string -> Option<AuthState>)
    ensures var (s1, items1) := Restored(s, items, parse);
            Restored(s1, items1, parse) == (s1, items1)
  {
  }

  /** Choosing a role keeps the sign-in and the user. */
  lemma SelectRoleKeepsUser(s: AuthState, role: UserRole)
    ensures s.(role := Some(role)).isAuthenticated == s.isAuthenticated
    ensures s.(role := Some(role)).user == s.user
  {
  }

  /** The saved copy's key is no password key, so signing in and out leaves every role password as it was. */
  lemma AuthKeyApart(items: Items, copy: string, userId: string, r: RoleAuth.RoleType, password: string)
    ensures RoleAuth.PasswordKey(userId, r) != AuthKey
    ensures RoleAuth.PasswordSet(items[AuthKey := copy], userId, r) == RoleAuth.PasswordSet(items, userId, r)
    ensures RoleAuth.Verifies(items[AuthKey := copy], userId, r, password) == RoleAuth.Verifies(items, userId, r, password)
    ensures RoleAuth.PasswordSet(items - {AuthKey}, userId, r) == RoleAuth.PasswordSet(items, userId, r)
    ensures RoleAuth.Verifies(items - {AuthKey}, userId, r, password) == RoleAuth.Verifies(items, userId, r, password)
  {
    assert RoleAuth.PasswordKey(userId, r)[0] == 'p';
  }
}

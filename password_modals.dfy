/**
 * The two password dialogs of the parent and teacher modes
 * (`PasswordSetupModal.tsx`, `PasswordInputModal.tsx`): the order of their
 * checks, what each writes to the role-password table, and when they hand
 * over to `onSuccess`. A `storageOk` parameter says whether the storage call
 * inside the `try` returns normally or throws.
 */
module PasswordModals {
  import opened Wrappers
  import Text
  import BrowserStorage
  import RoleAuth

  const EnterPassword := "パスワードを入力してください"
  const TooShort := "パスワードは4文字以上で設定してください"
  const Mismatch := "パスワードが一致しません"
  const SetFailed := "パスワードの設定に失敗しました"
  const WrongPassword := "パスワードが正しくありません"
  const CheckFailed := "認証に失敗しました"

  /** The shortest password the setup dialog accepts, in UTF-16 code units (`password.length`). */
  const MinLength := 4

  /** `getRoleLabel`, shared by both dialogs. */
  function RoleLabel(r: RoleAuth.RoleType): (shown: string)
    ensures shown == "保護者" <==> r == RoleAuth.Parent
    ensures shown == "指導者" <==> r == RoleAuth.Teacher
  {
    assert "保護者"[0] != "指導者"[0];
    match r
    case Parent => "保護者"
    case Teacher => "指導者"
  }

  // ---------------------------------------------------------------------------
  // Setting a password
  // ---------------------------------------------------------------------------

  /** The setup dialog's checks in their order; the first that fails names the error. */
  function SetupError(password: string, confirm: string): Option<string> {
    if Text.Trim(password) == "" then Some(EnterPassword)
    else if Text.Utf16Length(password) < MinLength then Some(TooShort)
    else if password != confirm then Some(Mismatch)
    else None
  }

  /**
   * Each error is shown exactly when its check is the first to fail, and a
   * password passes exactly when it is not blank, has at least four code
   * units before trimming, and matches its confirmation.
   */
  lemma SetupErrorCases(password: string, confirm: string)
    ensures SetupError(password, confirm) == Some(EnterPassword) <==> Text.IsBlank(password)
    ensures SetupError(password, confirm) == Some(TooShort) <==>
              !Text.IsBlank(password) && Text.Utf16Length(password) < MinLength
    ensures SetupError(password, confirm) == Some(Mismatch) <==>
              !Text.IsBlank(password) && Text.Utf16Length(password) >= MinLength && password != confirm
    ensures SetupError(password, confirm) == None <==>
              !Text.IsBlank(password) && Text.Utf16Length(password) >= MinLength && password == confirm
  {
    Text.TrimEmptyIffBlank(password);
  }

  /** The setup dialog for one user and role. */
  class SetupDialog {
    var password: string
    var confirmPassword: string
    var loading: bool
    var error: string
    const userId: string
    const roleType: RoleAuth.RoleType
    const local: BrowserStorage.Storage

    constructor (user: string, r: RoleAuth.RoleType, storage: BrowserStorage.Storage)
      ensures password == "" && confirmPassword == "" && !loading && error == ""
      ensures userId == user && roleType == r && local == storage
    {
      password := "";
      confirmPassword := "";
      loading := false;
      error := "";
      userId := user;
      roleType := r;
      local := storage;
    }

    /**
     * `handleSubmit`: a failed check sets its error and stores nothing;
     * otherwise the password's hash is stored and `onSuccess` runs
     * (`succeeded`). No session flag is set.
     */
    method HandleSubmit(storageOk: bool) returns (succeeded: bool)
      modifies this, local
      ensures password == old(password) && confirmPassword == old(confirmPassword)
      ensures SetupError(old(password), old(confirmPassword)).Some? ==>
                error == SetupError(old(password), old(confirmPassword)).value
                && loading == old(loading) && local.items == old(local.items) && !succeeded
      ensures SetupError(old(password), old(confirmPassword)).None? && storageOk ==>
                error == "" && !loading && succeeded
                && local.items == RoleAuth.WithPassword(old(local.items), userId, roleType, old(password))
      ensures SetupError(old(password), old(confirmPassword)).None? && !storageOk ==>
                error == SetFailed && !loading && !succeeded && local.items == old(local.items)
    {
      var check := SetupError(password, confirmPassword);
      if check.Some? {
        error := check.value;
        return false;
      }
      loading := true;
      error := "";
      if storageOk {
        RoleAuth.SetPassword(local, userId, roleType, password);
        succeeded := true;
      } else {
        error := SetFailed;
        succeeded := false;
      }
      loading := false;
    }
  }

  // ---------------------------------------------------------------------------
  // Entering a password
  // ---------------------------------------------------------------------------

  /** What the input dialog concludes once the store has been read. */
  datatype SignIn = Accepted | Refused(message: string)

  /** The input dialog's decision: blank first, without reading the store; then the hash comparison. */
  function SignInOutcome(items: RoleAuth.Items, userId: string, r: RoleAuth.RoleType, password: string): SignIn {
    if Text.Trim(password) == "" then Refused(EnterPassword)
    else if RoleAuth.Verifies(items, userId, r, password) then Accepted
    else Refused(WrongPassword)
  }

  /** A password accepted by the setup dialog lets its user in through the input dialog. */
  lemma SetupThenSignIn(items: RoleAuth.Items, userId: string, r: RoleAuth.RoleType, password: string, confirm: string)
    requires SetupError(password, confirm).None?
    ensures SignInOutcome(RoleAuth.WithPassword(items, userId, r, password), userId, r, password) == Accepted
  {
    RoleAuth.SetThenVerify(items, userId, r, password);
  }

  /** A blank entry is refused whatever the store holds. */
  lemma BlankRefused(items: RoleAuth.Items, other: RoleAuth.Items, userId: string, r: RoleAuth.RoleType, password: string)
    requires Text.IsBlank(password)
    ensures SignInOutcome(items, userId, r, password) == Refused(EnterPassword)
    ensures SignInOutcome(items, userId, r, password) == SignInOutcome(other, userId, r, password)
  {
    Text.TrimEmptyIffBlank(password);
  }

  /** After a reset no entry gets in. */
  lemma ResetRefusesAll(items: RoleAuth.Items, userId: string, r: RoleAuth.RoleType, password: string)
    ensures SignInOutcome(RoleAuth.WithoutPassword(items, userId, r), userId, r, password).Refused?
  {
    RoleAuth.ResetClears(items, userId, r, password);
  }

  /** The input dialog for one user and role. */
  class InputDialog {
    var password: string
    var loading: bool
    var error: string
    const userId: string
    const roleType: RoleAuth.RoleType
    const local: BrowserStorage.Storage

    constructor (user: string, r: RoleAuth.RoleType, storage: BrowserStorage.Storage)
      ensures password == "" && !loading && error == ""
      ensures userId == user && roleType == r && local == storage
    {
      password := "";
      loading := false;
      error := "";
      userId := user;
      roleType := r;
      local := storage;
    }

    /** `handleSubmit`: `onSuccess` runs (`succeeded`) exactly when the entry is accepted; the store is only read. */
    method HandleSubmit(storageOk: bool) returns (succeeded: bool)
      modifies this
      ensures password == old(password)
      ensures Text.IsBlank(old(password)) ==> error == EnterPassword && loading == old(loading) && !succeeded
      ensures !Text.IsBlank(old(password)) && storageOk ==>
                !loading && (succeeded <==> SignInOutcome(local.items, userId, roleType, old(password)) == Accepted)
                && (succeeded ==> error == "")
                && (!succeeded ==> error == WrongPassword)
      ensures !Text.IsBlank(old(password)) && !storageOk ==> error == CheckFailed && !loading && !succeeded
    {
      Text.TrimEmptyIffBlank(password);
      if Text.Trim(password) == "" {
        error := EnterPassword;
        return false;
      }
      loading := true;
      error := "";
      if storageOk {
        var valid := RoleAuth.VerifyPassword(local, userId, roleType, password);
        if valid {
          succeeded := true;
        } else {
          error := WrongPassword;
          succeeded := false;
        }
      } else {
        error := CheckFailed;
        succeeded := false;
      }
      loading := false;
    }

    /** `handlePasswordReset`: the stored hash is removed and `onCancel` runs, so setup is offered next. */
    method HandlePasswordReset() returns (cancelled: bool)
      modifies local
      ensures local.items == RoleAuth.WithoutPassword(old(local.items), userId, roleType)
      ensures !RoleAuth.PasswordSet(local.items, userId, roleType)
      ensures cancelled
    {
      RoleAuth.ResetPassword(local, userId, roleType);
      cancelled := true;
    }
  }
}

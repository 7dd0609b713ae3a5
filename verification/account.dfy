/**
 * The account page of client/src/Pages/Account.jsx: its state cells, the
 * length checks and ownership check made before an edit or a deletion, the
 * empty-field fallback of an edit, and the sign-out that expires the
 * cookies and clears the state.
 *
 * What the page reads from the browser (`document.cookie`, the text boxes)
 * is passed in; what it writes (cookies, the address, calls to the user
 * API) is recorded in order.
 */
module Account {
  import opened Wrappers
  import opened AccountCookies

  const SIGN_IN_PATH: string := "/account/signin"
  const HOME_PATH: string := "/"
  const MAX_DISPLAY_NAME_LENGTH: nat := 15
  const MAX_DESCRIPTION_LENGTH: nat := 200
  const DISPLAY_NAME_TOO_SHORT: string := "Display name is too short!"
  const DISPLAY_NAME_TOO_LONG: string := "Display name is too long!"
  const DESCRIPTION_TOO_LONG: string := "Description is too long!"
  const EXPIRED_USER_NAME: string := "userName=;path=/;domain=;expires=Thu, 01 Jan 1970 00:00:00 UTC"
  const EXPIRED_DISPLAY_NAME: string := "displayName=;path=/;domain=;expires=Thu, 01 Jan 1970 00:00:00 UTC"

  datatype Achievement = Achievement(name: string, description: string, locked: bool)

  datatype InventoryItem = InventoryItem(name: string, quantity: int)

  datatype AccountInformation = AccountInformation(
    userName: string,
    displayName: string,
    highestScore: int,
    gamesPlayed: int,
    wordsGuessed: int,
    accountDescription: string,
    achievements: seq<Achievement>,
    /** `None` once the state has been replaced by one without an `inventory` key */
    inventory: Option<seq<InventoryItem>>)

  /** A call to the user and score API. */
  datatype AccountRequest =
    | GetUser(userName: string)
    | GetScores(userName: string)
    | PatchUser(userName: string, displayName: string, description: string)
    | DeleteUser(userName: string)

  /** The state the page starts from. */
  function EmptyAccount(): AccountInformation {
    AccountInformation("", "", 0, 0, 0, "", [], Some([]))
  }

  /** The state a sign-out leaves: as `EmptyAccount`, but with no inventory at all. */
  function ClearedAccount(): AccountInformation {
    AccountInformation("", "", 0, 0, 0, "", [], None)
  }

  /** `"name=value;path=/;domain="`, the cookie the page writes to keep a value. */
  function CookieWrite(name: string, value: string): string {
    name + "=" + value + ";path=/;domain="
  }

  /**
   * The message of the first length check an edit fails, in the order they
   * are made, or `None` when it passes all three. An edit that passes never
   * has both fields empty, so the "no changes" case is unreachable.
   */
  function EditError(displayName: string, description: string): (r: Option<string>)
    ensures r == Some(DISPLAY_NAME_TOO_SHORT) <==> |displayName| < 1
    ensures r == Some(DISPLAY_NAME_TOO_LONG) <==> |displayName| > MAX_DISPLAY_NAME_LENGTH
    ensures r == Some(DESCRIPTION_TOO_LONG)
            <==> 1 <= |displayName| <= MAX_DISPLAY_NAME_LENGTH && |description| > MAX_DESCRIPTION_LENGTH
    ensures r == None <==> 1 <= |displayName| <= MAX_DISPLAY_NAME_LENGTH && |description| <= MAX_DESCRIPTION_LENGTH
    ensures r == None ==> !(|displayName| == 0 && |description| == 0)
  {
    if |displayName| < 1 then Some(DISPLAY_NAME_TOO_SHORT)
    else if |displayName| > MAX_DISPLAY_NAME_LENGTH then Some(DISPLAY_NAME_TOO_LONG)
    else if |description| > MAX_DESCRIPTION_LENGTH then Some(DESCRIPTION_TOO_LONG)
    else None
  }

  /**
   * The value an edit sends for a field: what was typed, or the stored value
   * when the box was left empty. A stored value can therefore never be
   * replaced by an empty one.
   */
  function Fallback(typed: string, stored: string): (r: string)
    ensures |typed| > 0 ==> r == typed
    ensures |r| == 0 <==> |typed| == 0 && |stored| == 0
    ensures r == typed || r == stored
  {
    if |typed| == 0 then stored else typed
  }

  /** An edit that passed the length checks sends the display name as typed. */
  lemma ValidatedNameIsSentAsTyped(displayName: string, description: string, stored: string)
    requires EditError(displayName, description) == None
    ensures Fallback(displayName, stored) == displayName
  {
  }

  /**
   * The ownership test of `verifyEdit` and `verifyDeletion`. Outside the
   * test environment a state user name holding `;` never passes, since the
   * value read from a cookie stops at the first `;`.
   */
  predicate OwnsAccount(cookie: string, stateUserName: string, testEnvironment: bool)
    ensures testEnvironment ==> OwnsAccount(cookie, stateUserName, testEnvironment)
    ensures ';' in stateUserName ==> (OwnsAccount(cookie, stateUserName, testEnvironment) <==> testEnvironment)
  {
    CookieValue(cookie, USER_NAME) == stateUserName || testEnvironment
  }

  /**
   * Outside the test environment the ownership test passes exactly when the
   * state's user name is the jar's last `userName` cookie, or is empty while
   * the jar holds no `userName` cookie.
   */
  lemma OwnershipReadsJar(jar: seq<Cookie>, stateUserName: string)
    requires WellFormed(jar)
    ensures OwnsAccount(DocumentCookie(jar), stateUserName, false)
            <==> stateUserName == ValueOr(LookUp(jar, USER_NAME))
  {
    assert PlainName(USER_NAME);
    ValueMatchesJar(jar, USER_NAME);
  }

  class AccountPage {
    var accountInformation: AccountInformation
    var editing: bool
    var editingError: string
    var deleting: bool
    var loggingOut: bool
    var testEnvironment: bool
    /** The strings assigned to `document.cookie`, in order. */
    var cookieWrites: seq<string>
    /** The path last assigned to `window.location.pathname`, if any. */
    var navigation: Option<string>
    /** The calls made to the user and score API, in order. */
    var requests: seq<AccountRequest>

    /**
     * The page mounting with the browser holding `cookie`;
     * `inTestEnvironment` is whether `NODE_ENV` is `test`. The mount effect
     * calls `getAccountDetails()` before it sets `testEnvironment`, so the
     * call sees the initial `false`: a signed-in user's account and scores
     * are looked up under the cookie's user name, and anyone else is signed
     * out to the sign-in page at once.
     */
    constructor (inTestEnvironment: bool, cookie: string)
      ensures editingError == "" && !editing && !deleting && !loggingOut
      ensures testEnvironment == inTestEnvironment
      ensures SignedIn(cookie) ==> LookingUp(CookieValue(cookie, USER_NAME))
      ensures !SignedIn(cookie) ==> TurnedAway()
    {
      editing, editingError, deleting, loggingOut := false, "", false, false;
      testEnvironment := inTestEnvironment;
      if SignedIn(cookie) {
        var userName := CookieValue(cookie, USER_NAME);
        accountInformation := EmptyAccount();
        cookieWrites, navigation := [], None;
        requests := [GetUser(userName), GetScores(userName)];
      } else {
        // `expireCookiesAndRedirect()`
        accountInformation := ClearedAccount();
        cookieWrites, navigation := [EXPIRED_USER_NAME, EXPIRED_DISPLAY_NAME], Some(SIGN_IN_PATH);
        requests := [];
      }
    }

    /** The mount found both cookies: nothing shown or written yet, the account of `userName` looked up. */
    predicate LookingUp(userName: string)
      reads this
    {
      && accountInformation == EmptyAccount() && cookieWrites == [] && navigation == None
      && requests == [GetUser(userName), GetScores(userName)]
    }

    /** The mount found a cookie missing: both cookies expired, the state cleared, sent to sign in, nothing requested. */
    predicate TurnedAway()
      reads this
    {
      && accountInformation == ClearedAccount()
      && cookieWrites == [EXPIRED_USER_NAME, EXPIRED_DISPLAY_NAME]
      && navigation == Some(SIGN_IN_PATH) && requests == []
    }

    /**
     * The responses to the lookups `getAccountDetails` makes. `details` is
     * the account the server returned when both calls succeeded and the
     * user record is not null, and `None` otherwise. The account is shown
     * and both cookies rewritten from it; any failure signs out.
     */
    method OnAccountDetails(details: Option<AccountInformation>)
      modifies this`accountInformation, this`cookieWrites, this`navigation
      ensures details.Some? ==>
                && accountInformation == details.value
                && cookieWrites == old(cookieWrites) + [CookieWrite(USER_NAME, details.value.userName),
                                                        CookieWrite(DISPLAY_NAME, details.value.displayName)]
                && navigation == old(navigation)
      ensures details.None? ==> SignedOut(SIGN_IN_PATH)
    {
      if details.None? {
        // a failed call, and a null record with or without a server message, end the same way
        ExpireCookiesAndRedirect(SIGN_IN_PATH);
        return;
      }
      accountInformation := details.value;
      cookieWrites := cookieWrites + [CookieWrite(USER_NAME, details.value.userName)];
      cookieWrites := cookieWrites + [CookieWrite(DISPLAY_NAME, details.value.displayName)];
    }

    /** The page's account state was cleared, both cookies expired and the browser sent to `redirect`. */
    twostate predicate SignedOut(redirect: string)
      reads this
    {
      && accountInformation == ClearedAccount()
      && cookieWrites == old(cookieWrites) + [EXPIRED_USER_NAME, EXPIRED_DISPLAY_NAME]
      && navigation == Some(redirect)
    }

    /** `expireCookiesAndRedirect(redirect)` */
    method ExpireCookiesAndRedirect(redirect: string)
      modifies this`accountInformation, this`cookieWrites, this`navigation
      ensures SignedOut(redirect)
    {
      cookieWrites := cookieWrites + [EXPIRED_USER_NAME];
      cookieWrites := cookieWrites + [EXPIRED_DISPLAY_NAME];
      accountInformation := ClearedAccount();
      navigation := Some(redirect);
    }

    /** The "Sign Out" button. */
    method SignOut()
      modifies this`loggingOut, this`accountInformation, this`cookieWrites, this`navigation
      ensures loggingOut && SignedOut(HOME_PATH)
    {
      loggingOut := true;
      ExpireCookiesAndRedirect(HOME_PATH);
    }

    /**
     * `verifyEdit()` with the text boxes holding `newDisplayName` and
     * `newDescription` and the browser holding `cookie`. A failed length
     * check sets its message and returns false without touching anything
     * else; otherwise the message is cleared and the edit goes ahead if the
     * ownership test passes, and the page signs out if it does not.
     */
    method VerifyEdit(cookie: string, newDisplayName: string, newDescription: string) returns (r: Option<bool>)
      modifies this`editingError, this`accountInformation, this`cookieWrites, this`navigation, this`requests
      ensures var err := EditError(newDisplayName, newDescription);
              err.Some? ==>
                && r == Some(false) && editingError == err.value
                && accountInformation == old(accountInformation) && cookieWrites == old(cookieWrites)
                && navigation == old(navigation) && requests == old(requests)
      ensures EditError(newDisplayName, newDescription).None? ==> r == None && editingError == ""
      ensures EditError(newDisplayName, newDescription).None? &&
              OwnsAccount(cookie, old(accountInformation.userName), testEnvironment) ==>
                && cookieWrites == old(cookieWrites) && navigation == old(navigation)
                && EditStarted(old(accountInformation.userName), newDisplayName, newDescription)
      ensures EditError(newDisplayName, newDescription).None? &&
              !OwnsAccount(cookie, old(accountInformation.userName), testEnvironment) ==>
                SignedOut(SIGN_IN_PATH) && requests == old(requests)
    {
      // the text boxes already limit the lengths; these checks repeat the limits
      if |newDisplayName| < 1 {
        editingError := DISPLAY_NAME_TOO_SHORT;
        return Some(false);
      }
      if |newDisplayName| > MAX_DISPLAY_NAME_LENGTH {
        editingError := DISPLAY_NAME_TOO_LONG;
        return Some(false);
      }
      if |newDescription| > MAX_DESCRIPTION_LENGTH {
        editingError := DESCRIPTION_TOO_LONG;
        return Some(false);
      }
      if |newDisplayName| == 0 && |newDescription| == 0 {
        // no changes: an empty display name was rejected above
        assert false;
      } else {
        editingError := "";
      }
      var userNameFromCookie := CookieValue(cookie, USER_NAME);
      var stateUserName := accountInformation.userName;
      if userNameFromCookie == stateUserName || testEnvironment {
        PerformAccountEdit(stateUserName, newDisplayName, newDescription);
      } else {
        ExpireCookiesAndRedirect(SIGN_IN_PATH);
      }
      return None;
    }

    /**
     * What `performAccountEdit` does before the response arrives: in the
     * test environment it stores the typed values as they are; otherwise it
     * sends a PATCH in which an empty field stands for the stored value.
     */
    twostate predicate EditStarted(userName: string, displayName: string, description: string)
      reads this
    {
      if testEnvironment then
        && accountInformation == old(accountInformation).(displayName := displayName, accountDescription := description)
        && requests == old(requests)
      else
        && accountInformation == old(accountInformation)
        && requests == old(requests) + [PatchUser(userName,
                                                  Fallback(displayName, old(accountInformation.displayName)),
                                                  Fallback(description, old(accountInformation.accountDescription)))]
    }

    /** `performAccountEdit(userName, displayName, description)` up to the PATCH call. */
    method PerformAccountEdit(userName: string, displayName: string, description: string)
      modifies this`accountInformation, this`requests
      ensures EditStarted(userName, displayName, description)
    {
      if testEnvironment {
        accountInformation := accountInformation.(displayName := displayName, accountDescription := description);
        return;
      }
      var updatedDisplayName := displayName;
      var updatedDescription := description;
      if |displayName| == 0 {
        updatedDisplayName := accountInformation.displayName;
      }
      if |description| == 0 {
        updatedDescription := accountInformation.accountDescription;
      }
      requests := requests + [PatchUser(userName, updatedDisplayName, updatedDescription)];
    }

    /**
     * The PATCH response of `performAccountEdit`: on success the state and
     * the `displayName` cookie take the values the server returned and the
     * account page is reloaded; on failure the page signs out. The event
     * stands for a response whose body parsed as JSON.
     */
    method OnEditResponse(ok: bool, displayName: string, description: string)
      modifies this`accountInformation, this`cookieWrites, this`navigation
      ensures ok ==>
                && accountInformation == old(accountInformation).(displayName := displayName, accountDescription := description)
                && cookieWrites == old(cookieWrites) + [CookieWrite(DISPLAY_NAME, displayName)]
                && navigation == Some(ACCOUNT_PATH + old(accountInformation.userName))
      ensures !ok ==> SignedOut(SIGN_IN_PATH)
    {
      if !ok {
        ExpireCookiesAndRedirect(SIGN_IN_PATH);
        return;
      }
      var reloadPath := ACCOUNT_PATH + accountInformation.userName;
      accountInformation := accountInformation.(displayName := displayName, accountDescription := description);
      cookieWrites := cookieWrites + [CookieWrite(DISPLAY_NAME, displayName)];
      navigation := Some(reloadPath);
    }

    /**
     * `verifyDeletion()` with the browser holding `cookie`: the deletion goes
     * ahead if the ownership test passes, and the page signs out if it does not.
     */
    method VerifyDeletion(cookie: string)
      modifies this`accountInformation, this`cookieWrites, this`navigation, this`requests
      ensures OwnsAccount(cookie, old(accountInformation.userName), testEnvironment) ==>
                && requests == old(requests) + [DeleteUser(old(accountInformation.userName))]
                && accountInformation == old(accountInformation)
                && cookieWrites == old(cookieWrites) && navigation == old(navigation)
      ensures !OwnsAccount(cookie, old(accountInformation.userName), testEnvironment) ==>
                SignedOut(SIGN_IN_PATH) && requests == old(requests)
    {
      var userName := CookieValue(cookie, USER_NAME);
      var stateUserName := accountInformation.userName;
      if userName == stateUserName || testEnvironment {
        PerformAccountDeletion(stateUserName);
      } else {
        ExpireCookiesAndRedirect(SIGN_IN_PATH);
      }
    }

    /** `performAccountDeletion(userName)` up to the DELETE call. */
    method PerformAccountDeletion(userName: string)
      modifies this`requests
      ensures requests == old(requests) + [DeleteUser(userName)]
    {
      requests := requests + [DeleteUser(userName)];
    }

    /**
     * The DELETE response, with a body that parsed as JSON: the page signs
     * out whether or not the deletion succeeded.
     */
    method OnDeletionResponse(ok: bool)
      modifies this`accountInformation, this`cookieWrites, this`navigation
      ensures SignedOut(SIGN_IN_PATH)
    {
      // the failure branches (with or without a server message) and success all end the same way
      ExpireCookiesAndRedirect(SIGN_IN_PATH);
    }
  }
}

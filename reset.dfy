/**
 * The password-reset handler (`reset.php`): read the token, look it up, and
 * on POST set the new password of the account the token is for, then use the
 * token up. `password_hash` is the oracle `hash`, `date()` the parameter
 * `stamp`, and each file write a success flag.
 */
module Reset {
  import opened Wrappers
  import opened Strings
  import opened Users
  import opened ResetTokens
  import opened Auth
  import opened Seqs

  datatype Problem =
    | TokenInvalidOrExpired | PasswordShort | PasswordMismatch
    | AdminSaveFailed | UserNotFound | UserSaveFailed | TokenInvalid

  function Message(p: Problem): string
  {
    match p
    case TokenInvalidOrExpired => "Token invalido ou expirado."
    case PasswordShort => "Senha deve ter pelo menos 6 caracteres."
    case PasswordMismatch => "As senhas nao conferem."
    case AdminSaveFailed => "Nao foi possivel atualizar a senha do admin."
    case UserNotFound => "Usuario nao encontrado."
    case UserSaveFailed => "Nao foi possivel atualizar a senha."
    case TokenInvalid => "Token invalido."
  }

  const Updated := "Senha atualizada com sucesso. Voce ja pode entrar."

  /** The minimum password length, in bytes (`strlen`). */
  const MinPassword := 6

  /**
   * The request as the handler reads it: the `token` query and form fields
   * (None when absent), whether it is a POST, and the two password fields
   * (None when absent, read as "").
   */
  datatype Request = Request(getToken: Option<string>, postToken: Option<string>, isPost: bool,
                             password: Option<string>, confirm: Option<string>)

  /**
   * `trim((string) ($_GET['token'] ?? ($_POST['token'] ?? '')))`: a query
   * field that is present wins, even when it is blank.
   */
  function TokenParam(getToken: Option<string>, postToken: Option<string>): (t: string)
    ensures getToken.Some? ==> t == Trim(getToken.value)
    ensures getToken.None? ==> t == Trim(postToken.GetOr(""))
    ensures t != [] ==> !IsTrimmable(t[0]) && !IsTrimmable(t[|t| - 1])
  {
    Trim(getToken.GetOr(postToken.GetOr("")))
  }

  /** A blank query token hides the token sent in the form. */
  lemma BlankQueryHidesForm(postToken: Option<string>)
    ensures TokenParam(Some(" "), postToken) == []
  {
    assert TrimStart(" ", IsTrimmable) == [];
  }

  /** The record `blog_find_reset_token` returns for the read token `t`. */
  function Found(records: seq<Token>, t: string, now: int): Option<Token>
  {
    if t == [] then None else LastMatch(Live(records, now), t)
  }

  /** The token file after the lookup: the expired records are purged when there were some and the write succeeds. */
  function AfterFind(records: seq<Token>, t: string, now: int, saveOk: bool): seq<Token>
  {
    if t != [] && saveOk && |Live(records, now)| != |records| then Live(records, now) else records
  }

  /** The password rules, in order. */
  function PasswordProblems(password: string, confirm: string): (r: seq<Problem>)
    ensures PasswordShort in r <==> |password| < MinPassword
    ensures PasswordMismatch in r <==> password != confirm
    ensures r == [] <==> |password| >= MinPassword && password == confirm
    ensures forall p :: p in r ==> p == PasswordShort || p == PasswordMismatch
  {
    (if |password| < MinPassword then [PasswordShort] else [])
    + (if password != confirm then [PasswordMismatch] else [])
  }

  /** Whose password a token resets: `type` and `id` are read as strings, "" when missing. */
  datatype Account = AdminAccount | UserAccount(id: string) | NoAccount

  function AccountOf(t: Token): (a: Account)
    ensures a == AdminAccount <==> t.kind == Some("admin") && t.id == Some("admin")
    ensures a.UserAccount? <==> t.kind == Some("user")
    ensures a.UserAccount? ==> a.id == t.id.GetOr("")
  {
    var kind := t.kind.GetOr("");
    var id := t.id.GetOr("");
    if kind == "admin" && id == "admin" then AdminAccount
    else if kind == "user" then UserAccount(id)
    else NoAccount
  }

  /** A token for the administrator with any other id resets nothing. */
  lemma AdminNeedsAdminId(t: Token)
    requires t.kind == Some("admin") && t.id != Some("admin")
    ensures AccountOf(t) == NoAccount
  {
  }

  /** Whether a user has the id `id`: the test of the update loop. */
  function HasId(id: string): User -> bool
  {
    (u: User) => u.id == id
  }

  function WithPassword(u: User, newHash: string, stamp: string): User
  {
    u.(passwordHash := newHash, updatedAt := Some(stamp))
  }

  /**
   * The user list after setting the password of the first user with id `id`;
   * None when no user has it. Every other user is left as it was.
   */
  function SetPassword(users: seq<User>, id: string, newHash: string, stamp: string): (r: Option<seq<User>>)
    ensures r.None? <==> forall j :: 0 <= j < |users| ==> users[j].id != id
    ensures r.Some? ==> var j := FirstWhere(users, HasId(id), 0).value;
      && |r.value| == |users|
      && r.value[j].passwordHash == newHash && r.value[j].updatedAt == Some(stamp)
      && r.value[j].username == users[j].username && r.value[j].id == id
      && forall k :: 0 <= k < |users| && k != j ==> r.value[k] == users[k]
  {
    match FirstWhere(users, HasId(id), 0)
    case Some(j) => Some(users[j := WithPassword(users[j], newHash, stamp)])
    case None => None
  }

  /**
   * The `foreach` of `reset.php` with its `$updated` flag and `break`: update
   * the first user whose id matches.
   */
  method UpdateFirst(users: seq<User>, id: string, newHash: string, stamp: string)
    returns (updated: seq<User>, found: bool)
    ensures found <==> SetPassword(users, id, newHash, stamp).Some?
    ensures updated == if found then SetPassword(users, id, newHash, stamp).value else users
  {
    updated := users;
    found := false;
    var i := 0;
    while i < |users|
      invariant 0 <= i <= |users|
      invariant updated == users
      invariant FirstWhere(users, HasId(id), i) == FirstWhere(users, HasId(id), 0)
    {
      if users[i].id == id {
        updated := users[i := WithPassword(users[i], newHash, stamp)];
        found := true;
        break;
      }
      i := i + 1;
    }
  }

  /** A reset keeps the usernames, so it keeps them distinct. */
  lemma SetPasswordKeepsDistinct(users: seq<User>, id: string, newHash: string, stamp: string)
    requires DistinctUsernames(users)
    requires SetPassword(users, id, newHash, stamp).Some?
    ensures DistinctUsernames(SetPassword(users, id, newHash, stamp).value)
  {
    var r := SetPassword(users, id, newHash, stamp).value;
    assert forall k :: 0 <= k < |r| ==> r[k].username == users[k].username;
  }

  /**
   * After a reset the user logs in with the new password: with distinct
   * usernames, looking up the reset user's name finds the updated record,
   * whose hash the new password verifies against.
   */
  lemma ResetThenLogin(users: seq<User>, id: string, password: string, hash: string -> string, stamp: string,
                       verify: (string, string) -> bool)
    requires DistinctUsernames(users)
    requires SetPassword(users, id, hash(password), stamp).Some?
    requires hash(password) != "" && verify(password, hash(password))
    requires NormalizeUsername(users[FirstWhere(users, HasId(id), 0).value].username) != []
    ensures UserPasswordOk(SetPassword(users, id, hash(password), stamp).value,
                           users[FirstWhere(users, HasId(id), 0).value].username, password, verify)
  {
    var r := SetPassword(users, id, hash(password), stamp).value;
    var j := FirstWhere(users, HasId(id), 0).value;
    SetPasswordKeepsDistinct(users, id, hash(password), stamp);
    LookupUnique(r, j);
    NormalizeIdempotent(r[j].username);
  }

  /** What a POST with a valid token does: the problems, and the user list and admin document after it. */
  datatype Effect = Effect(errors: seq<Problem>, users: seq<User>, doc: AdminDoc)

  /**
   * The POST branch once the token was found: the password rules, then the
   * update of the account the token is for. Nothing changes unless every step
   * succeeds, and only the account the token names is changed.
   */
  function Apply(t: Token, password: string, confirm: string, users: seq<User>, doc: AdminDoc,
                 newHash: string, stamp: string, saveOk: bool): (e: Effect)
    ensures e.errors == [] <==>
      && |password| >= MinPassword && password == confirm && saveOk
      && (AccountOf(t) == AdminAccount
          || (AccountOf(t).UserAccount? && SetPassword(users, AccountOf(t).id, newHash, stamp).Some?))
    ensures e.errors != [] ==> e.users == users && e.doc == doc
    ensures e.doc != doc ==> AccountOf(t) == AdminAccount && e.doc == AdminDoc(Some(newHash), Some(stamp))
    ensures e.users != users ==>
      AccountOf(t).UserAccount? && e.users == SetPassword(users, AccountOf(t).id, newHash, stamp).value
    ensures e.errors == [] && AccountOf(t) == AdminAccount ==>
      e.doc == AdminDoc(Some(newHash), Some(stamp)) && e.users == users
    ensures e.errors == [] && AccountOf(t).UserAccount? ==>
      e.users == SetPassword(users, AccountOf(t).id, newHash, stamp).value && e.doc == doc
  {
    var problems := PasswordProblems(password, confirm);
    if problems != [] then Effect(problems, users, doc)
    else match AccountOf(t)
      case AdminAccount =>
        if saveOk then Effect([], users, AdminDoc(Some(newHash), Some(stamp)))
        else Effect([AdminSaveFailed], users, doc)
      case UserAccount(id) =>
        (match SetPassword(users, id, newHash, stamp)
         case None => Effect([UserNotFound], users, doc)
         case Some(updated) => if saveOk then Effect([], updated, doc) else Effect([UserSaveFailed], users, doc))
      case NoAccount => Effect([TokenInvalid], users, doc)
  }

  /**
   * After a successful reset for a user token, that user logs in with the new
   * password: with distinct usernames, the login lookup of the reset user's
   * name finds the written record, whose hash the new password verifies against.
   */
  lemma ApplyThenUserLogin(t: Token, password: string, users: seq<User>, doc: AdminDoc,
                           hash: string -> string, stamp: string, verify: (string, string) -> bool)
    requires DistinctUsernames(users) && AccountOf(t).UserAccount?
    requires Apply(t, password, password, users, doc, hash(password), stamp, true).errors == []
    requires hash(password) != "" && verify(password, hash(password))
    requires NormalizeUsername(users[FirstWhere(users, HasId(AccountOf(t).id), 0).value].username) != []
    ensures UserPasswordOk(Apply(t, password, password, users, doc, hash(password), stamp, true).users,
                           users[FirstWhere(users, HasId(AccountOf(t).id), 0).value].username, password, verify)
  {
    ResetThenLogin(users, AccountOf(t).id, password, hash, stamp, verify);
  }

  /**
   * After a successful reset for the administrator token, the stored override
   * hash decides the admin password check, and the new password passes it,
   * whatever the configuration says.
   */
  lemma ApplyThenAdminLogin(t: Token, password: string, users: seq<User>, doc: AdminDoc, config: AdminConfig,
                            hash: string -> string, stamp: string, verify: (string, string) -> bool)
    requires AccountOf(t) == AdminAccount
    requires Apply(t, password, password, users, doc, hash(password), stamp, true).errors == []
    requires hash(password) != "" && verify(password, hash(password))
    ensures var e := Apply(t, password, password, users, doc, hash(password), stamp, true);
      OverrideHash(e.doc) == hash(password) && AdminPasswordOk(password, OverrideHash(e.doc), config, verify)
  {
  }

  /** The POST branch for the found token `t`, on the stores. */
  method ResetPassword(t: Token, userStore: UserStore, admin: AdminStore, password: string, confirm: string,
                       hash: string -> string, stamp: string, saveOk: bool) returns (errors: seq<Problem>)
    modifies userStore, admin
    ensures var e := Apply(t, password, confirm, old(userStore.users), old(admin.doc), hash(password), stamp, saveOk);
      errors == e.errors && userStore.users == e.users && admin.doc == e.doc
  {
    errors := PasswordProblems(password, confirm);
    if errors != [] {
      return;
    }
    var kind := t.kind.GetOr("");
    var id := t.id.GetOr("");
    if kind == "admin" && id == "admin" {
      var ok := admin.Save(AdminDoc(Some(hash(password)), Some(stamp)), saveOk);
      if !ok {
        errors := [AdminSaveFailed];
      }
    } else if kind == "user" {
      var users := userStore.users;
      var updated, found := UpdateFirst(users, id, hash(password), stamp);
      if !found {
        errors := [UserNotFound];
      } else {
        var ok := userStore.Save(updated, saveOk);
        if !ok {
          errors := [UserSaveFailed];
        }
      }
    } else {
      errors := [TokenInvalid];
    }
  }

  lemma RemoveFirstAbsent(records: seq<Token>, token: string)
    requires forall t :: t in records ==> t.token != token
    ensures RemoveFirst(records, token) == records
  {
  }

  /**
   * `reset.php`. A logged-in visitor is sent to `admin.php`. Otherwise the
   * token is looked up (which may purge expired records); on POST with a
   * found token the password is reset, and the token is used up exactly when
   * the reset succeeded.
   */
  method Handle(tokens: TokenStore, userStore: UserStore, admin: AdminStore, loggedIn: bool, request: Request,
                now: int, hash: string -> string, stamp: string, purgeOk: bool, saveOk: bool, consumeOk: bool)
    returns (redirect: Option<string>, errors: seq<Problem>, success: string)
    modifies tokens, userStore, admin
    ensures loggedIn ==>
      && redirect == Some("admin.php") && errors == [] && success == ""
      && tokens.records == old(tokens.records) && userStore.users == old(userStore.users) && admin.doc == old(admin.doc)
    ensures !loggedIn ==> redirect.None?
    ensures !loggedIn ==> (
      var t := TokenParam(request.getToken, request.postToken);
      var purged := AfterFind(old(tokens.records), t, now, purgeOk);
      match Found(old(tokens.records), t, now)
      case None =>
        && errors == [TokenInvalidOrExpired] && success == ""
        && tokens.records == purged && userStore.users == old(userStore.users) && admin.doc == old(admin.doc)
      case Some(found) =>
        if !request.isPost then
          && errors == [] && success == ""
          && tokens.records == purged && userStore.users == old(userStore.users) && admin.doc == old(admin.doc)
        else
          var password := request.password.GetOr("");
          var e := Apply(found, password, request.confirm.GetOr(""), old(userStore.users), old(admin.doc),
                         hash(password), stamp, saveOk);
          && errors == e.errors && userStore.users == e.users && admin.doc == e.doc
          && success == (if e.errors == [] then Updated else "")
          && tokens.records == if e.errors == [] && consumeOk then RemoveFirst(purged, t) else purged)
  {
    errors := [];
    success := "";
    if loggedIn {
      return Some("admin.php"), errors, success;
    }
    redirect := None;
    var t := TokenParam(request.getToken, request.postToken);
    var found: Option<Token> := None;
    if t != [] {
      TrimUntouched(t);
      found := tokens.Find(t, now, purgeOk);
    }
    if found.None? {
      errors := [TokenInvalidOrExpired];
      return;
    }
    if !request.isPost {
      return;
    }
    var password := request.password.GetOr("");
    errors := ResetPassword(found.value, userStore, admin, password, request.confirm.GetOr(""), hash, stamp, saveOk);
    if errors == [] {
      var purged := tokens.records;
      var consumed := tokens.Consume(t, consumeOk);
      if !consumed {
        RemoveFirstAbsent(purged, t);
      }
      success := Updated;
    }
  }

  /**
   * A reset link works once: when at most one record carries the token, after
   * a successful reset used it up the token is never found again.
   */
  lemma UsedLinkIsDead(records: seq<Token>, t: string, now: int, purgeOk: bool, later: int)
    requires Count(records, t) <= 1
    ensures Found(RemoveFirst(AfterFind(records, t, now, purgeOk), t), t, later).None?
  {
    var purged := AfterFind(records, t, now, purgeOk);
    LiveCount(records, now, t);
    SingleUse(purged, t, later);
  }
}

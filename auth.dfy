/**
 * Login, logout and the login gate (`blog_is_logged_in`, `blog_attempt_login`,
 * `blog_logout`, `blog_require_login`). The PHP session is a map from keys to
 * values that the session object updates in place; `password_verify` is an
 * oracle and `time()` a parameter.
 */
module Auth {
  import opened Wrappers
  import opened Strings
  import opened Users

  /** The values the blog stores in `$_SESSION`. */
  datatype SessionValue = Flag(b: bool) | Stamp(t: int) | Text(s: string)

  const LoggedInKey := "blog_logged_in"
  const LoginTimeKey := "blog_login_time"
  const NameKey := "blog_user_name"
  const UsernameKey := "blog_user_username"
  const NicknameKey := "blog_user_nickname"

  /**
   * The fallback administrator: `BLOG_ADMIN_USER`, and the optional constants
   * `BLOG_ADMIN_PASS_HASH` and `BLOG_ADMIN_PASS` (None when not defined).
   */
  datatype AdminConfig = AdminConfig(user: string, passHash: Option<string>, pass: Option<string>)

  /** The configuration the blog ships with. */
  const Shipped := AdminConfig("admin", None, Some("admin123"))

  /**
   * The administrator credential document (`data/admin.json`), written by a
   * password reset; a field that is absent is None.
   */
  datatype AdminDoc = AdminDoc(passwordHash: Option<string>, updatedAt: Option<string>)

  /** `(string) ($adminData['password_hash'] ?? '')`. */
  function OverrideHash(doc: AdminDoc): string
  {
    doc.passwordHash.GetOr("")
  }

  /** The administrator credential file as a store; a failed save leaves it as it was. */
  class AdminStore {
    var doc: AdminDoc

    constructor(doc0: AdminDoc)
      ensures doc == doc0
    {
      doc := doc0;
    }

    /** `blog_save_admin_credentials`: the whole document is replaced. */
    method Save(newDoc: AdminDoc, saveOk: bool) returns (ok: bool)
      modifies this
      ensures ok == saveOk
      ensures doc == if saveOk then newDoc else old(doc)
    {
      if saveOk {
        doc := newDoc;
      }
      return saveOk;
    }
  }

  /** Who a successful login records in the session. */
  datatype Identity = Identity(name: string, username: string, nickname: string)

  /** PHP `empty()` on a session entry: absent, `false`, `0` and `""` are empty. */
  predicate Empty(v: Option<SessionValue>)
  {
    v.None? || v == Some(Flag(false)) || v == Some(Stamp(0)) || v == Some(Text("")) || v == Some(Text("0"))
  }

  function Get(data: map<string, SessionValue>, key: string): Option<SessionValue>
  {
    if key in data then Some(data[key]) else None
  }

  /**
   * `blog_is_logged_in`: `!empty(flag) && flag === true`, which is the same as
   * the flag being exactly boolean `true`.
   */
  function IsLoggedIn(data: map<string, SessionValue>): (b: bool)
    ensures b <==> LoggedInKey in data && data[LoggedInKey] == Flag(true)
  {
    var flag := Get(data, LoggedInKey);
    !Empty(flag) && flag == Some(Flag(true))
  }

  /** The session after a successful login of `who` at time `now`. */
  function SignIn(data: map<string, SessionValue>, who: Identity, now: int): map<string, SessionValue>
  {
    data[LoggedInKey := Flag(true)][LoginTimeKey := Stamp(now)]
        [NameKey := Text(who.name)][UsernameKey := Text(who.username)][NicknameKey := Text(who.nickname)]
  }

  /** After signing in the user is logged in, the identity fields are set, and other entries stay. */
  lemma SignInLogsIn(data: map<string, SessionValue>, who: Identity, now: int)
    ensures var after := SignIn(data, who, now);
      && IsLoggedIn(after)
      && after[LoginTimeKey] == Stamp(now)
      && after[NameKey] == Text(who.name)
      && after[UsernameKey] == Text(who.username)
      && after[NicknameKey] == Text(who.nickname)
      && forall k :: k in data && k !in {LoggedInKey, LoginTimeKey, NameKey, UsernameKey, NicknameKey} ==>
           k in after && after[k] == data[k]
  {
  }

  /**
   * The administrator password check, in its order of precedence: a non-empty
   * override hash, else the configured hash, else the plain-text constant,
   * else nothing passes.
   */
  function AdminPasswordOk(password: string, overrideHash: string, config: AdminConfig,
                           verify: (string, string) -> bool): bool
  {
    if overrideHash != "" then verify(password, overrideHash)
    else if config.passHash.Some? then verify(password, config.passHash.value)
    else if config.pass.Some? then config.pass.value == password
    else false
  }

  /** With the shipped configuration and no override, the admin password is exactly `admin123`. */
  lemma ShippedAdminPassword(password: string, verify: (string, string) -> bool)
    ensures AdminPasswordOk(password, "", Shipped, verify) <==> password == "admin123"
  {
  }

  /** Once an override hash is stored, the shipped plain-text password no longer opens the admin account by itself. */
  lemma OverrideReplacesConstant(password: string, overrideHash: string, config: AdminConfig,
                                 verify: (string, string) -> bool)
    requires overrideHash != "" && !verify(password, overrideHash)
    ensures !AdminPasswordOk(password, overrideHash, config, verify)
  {
  }

  /** Without any password source the admin check never passes. */
  lemma NoAdminPassword(password: string, user: string, verify: (string, string) -> bool)
    ensures !AdminPasswordOk(password, "", AdminConfig(user, None, None), verify)
  {
  }

  /** A registered user, looked up case-insensitively, whose non-empty stored hash verifies. */
  predicate UserPasswordOk(users: seq<User>, username: string, password: string, verify: (string, string) -> bool)
  {
    var found := Lookup(users, NormalizeUsername(username));
    found.Some? && found.value.passwordHash != "" && verify(password, found.value.passwordHash)
  }

  /** The administrator fallback: the trimmed name equals `BLOG_ADMIN_USER` exactly, and the password check passes. */
  predicate AdminLoginOk(username: string, password: string, overrideHash: string, config: AdminConfig,
                         verify: (string, string) -> bool)
  {
    Trim(username) == config.user && AdminPasswordOk(password, overrideHash, config, verify)
  }

  /** Who `blog_attempt_login` signs in: the registered user first, then the administrator, else nobody. */
  function LoginDecision(users: seq<User>, username: string, password: string, overrideHash: string,
                         config: AdminConfig, verify: (string, string) -> bool): (r: Option<Identity>)
    ensures r.Some? <==> UserPasswordOk(users, username, password, verify)
                         || AdminLoginOk(username, password, overrideHash, config, verify)
    ensures UserPasswordOk(users, username, password, verify) ==>
      var u := Lookup(users, NormalizeUsername(username)).value;
      r == Some(Identity(u.name, u.username, u.nickname))
    ensures !UserPasswordOk(users, username, password, verify) && r.Some? ==>
      r == Some(Identity(config.user, config.user, config.user))
  {
    var found := Lookup(users, NormalizeUsername(username));
    if UserPasswordOk(users, username, password, verify) then
      Some(Identity(found.value.name, found.value.username, found.value.nickname))
    else if AdminLoginOk(username, password, overrideHash, config, verify) then
      Some(Identity(config.user, config.user, config.user))
    else None
  }

  /**
   * The administrator name is compared case-sensitively, unlike registered
   * usernames: with the shipped configuration `ADMIN` is refused where
   * `admin` is let in.
   */
  lemma AdminNameIsCaseSensitive(users: seq<User>, verify: (string, string) -> bool)
    requires Lookup(users, "admin").None?
    ensures LoginDecision(users, "ADMIN", "admin123", "", Shipped, verify).None?
    ensures LoginDecision(users, " admin ", "admin123", "", Shipped, verify) == Some(Identity("admin", "admin", "admin"))
  {
    UpperAdmin();
    PaddedTrim();
    PaddedAdmin();
    ShippedDecision(users, "ADMIN", verify);
    ShippedDecision(users, " admin ", verify);
  }

  /**
   * With the shipped configuration, no override and no registered user under
   * the name, `admin123` signs in exactly when the trimmed name is `admin`.
   */
  lemma ShippedDecision(users: seq<User>, name: string, verify: (string, string) -> bool)
    requires Lookup(users, NormalizeUsername(name)).None?
    ensures Trim(name) == Shipped.user ==>
      LoginDecision(users, name, "admin123", "", Shipped, verify) == Some(Identity("admin", "admin", "admin"))
    ensures Trim(name) != Shipped.user ==> LoginDecision(users, name, "admin123", "", Shipped, verify).None?
  {
    assert !UserPasswordOk(users, name, "admin123", verify);
  }

  lemma UpperAdmin()
    ensures Trim("ADMIN") == "ADMIN" && NormalizeUsername("ADMIN") == "admin"
  {
    TrimUntouched("ADMIN");
    var r := ToLower("ADMIN");
    assert r[0] == 'a' && r[1] == 'd' && r[2] == 'm' && r[3] == 'i' && r[4] == 'n';
    assert r == "admin";
  }

  lemma PaddedAdmin()
    ensures NormalizeUsername(" admin ") == "admin"
  {
    PaddedTrim();
    AdminWord();
    LowerUntouched("admin");
  }

  /** `admin` is a word: no blank at either end and no upper-case letter. */
  lemma AdminWord()
    ensures var w := "admin"; w != [] && !IsTrimmable(w[0]) && !IsTrimmable(w[|w| - 1])
    ensures var w := "admin"; forall k :: 0 <= k < |w| ==> !IsUpper(w[k])
  {
    var w := "admin";
    assert w[0] == 'a' && w[1] == 'd' && w[2] == 'm' && w[3] == 'i' && w[4] == 'n';
  }

  /** One blank on each side of `admin` is trimmed away. */
  lemma PaddedTrim()
    ensures Trim(" admin ") == "admin"
  {
    var s := [' '] + "admin" + [' '];
    assert s[0] == ' ' && s[1] == 'a' && s[5] == 'n' && s[6] == ' ';
    TrimExact(s, 1, 6);
    assert s[1..6] == "admin";
    assert s == " admin ";
  }

  /**
   * The checks of `blog_attempt_login`, in order: the registered user found
   * by the normalised name, whose stored hash must be non-empty and verify;
   * then the administrator name, compared after trimming only, and password.
   */
  method Authenticate(users: seq<User>, username: string, password: string, overrideHash: string,
                      config: AdminConfig, verify: (string, string) -> bool) returns (who: Option<Identity>)
    ensures who == LoginDecision(users, username, password, overrideHash, config, verify)
  {
    var normalized := NormalizeUsername(username);
    var user := FindUserByUsername(users, normalized);
    if user.Some? {
      var hash := user.value.passwordHash;
      if hash != "" && verify(password, hash) {
        return Some(Identity(user.value.name, user.value.username, user.value.nickname));
      }
    }
    var userOk := config.user == Trim(username);
    var passOk := AdminPasswordOk(password, overrideHash, config, verify);
    if !userOk || !passOk {
      return None;
    }
    return Some(Identity(config.user, config.user, config.user));
  }

  /** The PHP session of one visitor. */
  class Session {
    var data: map<string, SessionValue>

    constructor(data0: map<string, SessionValue>)
      ensures data == data0
    {
      data := data0;
    }

    /**
     * `blog_attempt_login`: on success the session records who logged in and
     * when; a failed attempt leaves the session as it was.
     */
    method AttemptLogin(users: seq<User>, username: string, password: string, admin: AdminDoc,
                        config: AdminConfig, verify: (string, string) -> bool, now: int) returns (ok: bool)
      modifies this
      ensures var decision := LoginDecision(users, username, password, OverrideHash(admin), config, verify);
        && (ok <==> decision.Some?)
        && data == if ok then SignIn(old(data), decision.value, now) else old(data)
    {
      var who := Authenticate(users, username, password, OverrideHash(admin), config, verify);
      if who.None? {
        return false;
      }
      data := SignIn(data, who.value, now);
      return true;
    }

    /** `blog_logout`: the session is emptied (cookie removal and `session_destroy` are left out). */
    method Logout()
      modifies this
      ensures data == map[]
      ensures !IsLoggedIn(data)
    {
      data := map[];
    }

    /** `blog_require_login`: the redirect target when nobody is logged in, None otherwise. */
    method RequireLogin() returns (redirect: Option<string>)
      ensures redirect.None? <==> IsLoggedIn(data)
      ensures redirect.Some? ==> redirect.value == "login.php"
    {
      if !IsLoggedIn(data) {
        return Some("login.php");
      }
      return None;
    }
  }
}

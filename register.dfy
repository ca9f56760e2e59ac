/**
 * The registration handler (`register.php`, POST): validate the form, refuse
 * a username that is taken, append the new user and save.
 */
module Register {
  import opened Wrappers
  import opened Strings
  import opened Users

  /** The POST fields as sent; a missing field is "". */
  datatype Form = Form(name: string, username: string, nickname: string, password: string,
                       email: string, whatsapp: string)

  /** The problems the handler reports. */
  datatype Problem =
    | NameRequired | UsernameRequired | UsernameInvalid | UsernameTaken | NicknameRequired
    | PasswordShort | EmailInvalid | WhatsappInvalid | SaveFailed

  /** The message shown for each problem. */
  function Message(p: Problem): string
  {
    match p
    case NameRequired => "Nome e obrigatorio."
    case UsernameRequired => "Nome de usuario e obrigatorio."
    case UsernameInvalid => "Nome de usuario invalido. Use ao menos 3 caracteres (letras, numeros, ponto, underline ou hifen)."
    case UsernameTaken => "Nome de usuario ja em uso."
    case NicknameRequired => "Nickname no blog e obrigatorio."
    case PasswordShort => "Senha deve ter pelo menos 6 caracteres."
    case EmailInvalid => "Email invalido."
    case WhatsappInvalid => "Whatsapp invalido."
    case SaveFailed => "Nao foi possivel salvar o cadastro."
  }

  const Created := "Cadastro criado com sucesso. Voce ja pode entrar."

  /** The minimum password length, in bytes (`strlen`). */
  const MinPassword := 6

  predicate UsernameChar(c: char)
  {
    IsUpper(c) || IsLower(c) || IsDigit(c) || c == '.' || c == '_' || c == '-'
  }

  /** PCRE `\s`: space, \t, \n, \x0B, \f and \r. */
  predicate IsSpace(c: char)
  {
    c == ' ' || c == '\t' || c == '\n' || c as int == 0x0B || c as int == 0x0C || c == '\r'
  }

  predicate PhoneChar(c: char)
  {
    IsDigit(c) || c == '+' || c == '(' || c == ')' || IsSpace(c) || c == '-'
  }

  /** At least `min` characters, all satisfying `ok`. */
  predicate Run(s: string, ok: char -> bool, min: nat)
  {
    |s| >= min && forall k :: 0 <= k < |s| ==> ok(s[k])
  }

  /** `^[class]{min,}$`; without the D modifier `$` also matches before a final newline. */
  predicate MatchesRun(s: string, ok: char -> bool, min: nat)
  {
    Run(s, ok, min) || (s != [] && s[|s| - 1] == '\n' && Run(s[..|s| - 1], ok, min))
  }

  /**
   * The fields as the handler reads them: trimmed, and the username also
   * lower-cased. The handler trims the username before normalising it, which
   * trims again; `TrimBeforeNormalize` shows the first trim changes nothing.
   */
  function Cleaned(form: Form): Form
  {
    Form(Trim(form.name), NormalizeUsername(form.username), Trim(form.nickname), form.password,
         Trim(form.email), Trim(form.whatsapp))
  }

  /** `[p]` when `failed`, else nothing. */
  function Flag(failed: bool, p: Problem): (r: seq<Problem>)
    ensures forall q :: q in r <==> failed && q == p
  {
    if failed then [p] else []
  }

  /** `blog_normalize_username(trim($u))` is `blog_normalize_username($u)`. */
  lemma TrimBeforeNormalize(u: string)
    ensures NormalizeUsername(Trim(u)) == NormalizeUsername(u)
  {
    TrimUntouched(Trim(u));
  }

  /** The username rule: present, of the allowed characters, and not the administrator's. */
  function UsernameErrors(username: string, adminUser: string): (r: seq<Problem>)
    ensures UsernameRequired in r <==> username == []
    ensures UsernameInvalid in r <==> username != [] && !MatchesRun(username, UsernameChar, 3)
    ensures UsernameTaken in r <==>
      (username != [] && MatchesRun(username, UsernameChar, 3) && username == NormalizeUsername(adminUser))
    ensures forall q :: q in r ==> q in {UsernameRequired, UsernameInvalid, UsernameTaken}
  {
    if username == [] then [UsernameRequired]
    else if !MatchesRun(username, UsernameChar, 3) then [UsernameInvalid]
    else if NormalizeUsername(adminUser) == username then [UsernameTaken]
    else []
  }

  /** Whether the cleaned fields `f` break the rule whose message is `p`. */
  predicate Fails(p: Problem, f: Form, adminUser: string, validEmail: string -> bool)
  {
    match p
    case NameRequired => f.name == []
    case UsernameRequired => f.username == []
    case UsernameInvalid => f.username != [] && !MatchesRun(f.username, UsernameChar, 3)
    case UsernameTaken =>
      f.username != [] && MatchesRun(f.username, UsernameChar, 3) && f.username == NormalizeUsername(adminUser)
    case NicknameRequired => f.nickname == []
    case PasswordShort => |f.password| < MinPassword
    case EmailInvalid => f.email == [] || !validEmail(f.email)
    case WhatsappInvalid => f.whatsapp == [] || !MatchesRun(f.whatsapp, PhoneChar, 6)
    case SaveFailed => false
  }

  /**
   * The validation messages of `register.php`, in order, for the cleaned
   * fields `f`; `validEmail` stands for `filter_var(..., FILTER_VALIDATE_EMAIL)`.
   */
  function Validate(f: Form, adminUser: string, validEmail: string -> bool): (errors: seq<Problem>)
    ensures errors == [] <==>
      && f.name != [] && f.nickname != []
      && f.username != [] && MatchesRun(f.username, UsernameChar, 3) && f.username != NormalizeUsername(adminUser)
      && |f.password| >= MinPassword
      && f.email != [] && validEmail(f.email)
      && f.whatsapp != [] && MatchesRun(f.whatsapp, PhoneChar, 6)
  {
    Flag(f.name == [], NameRequired)
    + UsernameErrors(f.username, adminUser)
    + Flag(f.nickname == [], NicknameRequired)
    + Flag(|f.password| < MinPassword, PasswordShort)
    + Flag(f.email == [] || !validEmail(f.email), EmailInvalid)
    + Flag(f.whatsapp == [] || !MatchesRun(f.whatsapp, PhoneChar, 6), WhatsappInvalid)
  }

  /** Each message is reported exactly when its rule is broken. */
  lemma ValidateReports(f: Form, adminUser: string, validEmail: string -> bool)
    ensures forall p :: p in Validate(f, adminUser, validEmail) <==> Fails(p, f, adminUser, validEmail)
  {
  }

  /** The record appended for the accepted cleaned fields `f`; `hash` stands for `password_hash`. */
  function NewUser(f: Form, id: string, hash: string -> string, createdAt: string): User
  {
    User(id, f.name, f.username, f.nickname, f.email, f.whatsapp, hash(f.password), createdAt, None)
  }

  /** An accepted username is stored in its normal form, at least three allowed characters long. */
  lemma AcceptedUsername(form: Form, adminUser: string, validEmail: string -> bool,
                         id: string, hash: string -> string, createdAt: string)
    requires Validate(Cleaned(form), adminUser, validEmail) == []
    ensures var u := NewUser(Cleaned(form), id, hash, createdAt);
      && NormalizeUsername(u.username) == u.username
      && u.username != NormalizeUsername(adminUser)
      && 3 <= |u.username|
  {
    NormalizeIdempotent(form.username);
  }

  /**
   * The problems `register.php` reports before saving: the form rules, then,
   * only when they all pass, that the username is already taken.
   */
  function Problems(users: seq<User>, f: Form, adminUser: string, validEmail: string -> bool): seq<Problem>
  {
    var invalid := Validate(f, adminUser, validEmail);
    if invalid != [] then invalid else if Lookup(users, f.username).Some? then [UsernameTaken] else []
  }

  /** The checks, in the order the handler makes them. */
  method Check(users: seq<User>, f: Form, adminUser: string, validEmail: string -> bool)
    returns (errors: seq<Problem>)
    ensures errors == Problems(users, f, adminUser, validEmail)
  {
    errors := Validate(f, adminUser, validEmail);
    if errors == [] {
      var taken := UsernameExists(users, f.username);
      if taken {
        errors := errors + [UsernameTaken];
      }
    }
  }

  /**
   * The POST branch of `register.php`: the fields are trimmed (and the
   * username normalised), then checked; the user is appended and saved only
   * when every check passed. `newId` stands for the random id.
   */
  method Submit(store: UserStore, form: Form, adminUser: string, validEmail: string -> bool,
                newId: string, hash: string -> string, createdAt: string, saveOk: bool)
    returns (errors: seq<Problem>, success: string)
    modifies store
    ensures var problems := Problems(old(store.users), Cleaned(form), adminUser, validEmail);
      && errors == (if problems != [] then problems else if !saveOk then [SaveFailed] else [])
      && store.users == (if errors == [] then old(store.users) + [NewUser(Cleaned(form), newId, hash, createdAt)]
                         else old(store.users))
    ensures success == if errors == [] then Created else ""
  {
    success := "";
    var f := Cleaned(form);
    var users := store.users;
    errors := Check(users, f, adminUser, validEmail);
    if errors != [] {
      return;
    }
    var ok := store.Save(users + [NewUser(f, newId, hash, createdAt)], saveOk);
    if !ok {
      return [SaveFailed], success;
    }
    success := Created;
  }

  /**
   * Registration keeps usernames distinct: when every check passes, the new
   * user's username is in normal form and differs from every stored one.
   */
  lemma RegisterKeepsDistinct(users: seq<User>, form: Form, adminUser: string, validEmail: string -> bool,
                              id: string, hash: string -> string, createdAt: string)
    requires DistinctUsernames(users)
    requires Problems(users, Cleaned(form), adminUser, validEmail) == []
    ensures DistinctUsernames(users + [NewUser(Cleaned(form), id, hash, createdAt)])
  {
    var f := Cleaned(form);
    var u := NewUser(f, id, hash, createdAt);
    assert Validate(f, adminUser, validEmail) == [] && Lookup(users, f.username).None?;
    AcceptedUsername(form, adminUser, validEmail, id, hash, createdAt);
    assert u.username == f.username && NormalizeUsername(u.username) == u.username;
    AddKeepsDistinct(users, u);
  }
}

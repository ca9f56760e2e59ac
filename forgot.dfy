/**
 * The forgotten-password handler (`forgot.php`, POST): resolve the account
 * the name belongs to, the administrator first, and issue a reset token that
 * lives 30 minutes.
 */
module Forgot {
  import opened Wrappers
  import opened Strings
  import opened Users
  import opened ResetTokens

  datatype Problem = UsernameMissing | UserNotFound | LinkFailed

  function Message(p: Problem): string
  {
    match p
    case UsernameMissing => "Informe o nome de usuario."
    case UserNotFound => "Usuario nao encontrado."
    case LinkFailed => "Nao foi possivel gerar o link de recuperacao."
  }

  const Generated := "Link gerado com sucesso (expira em 30 minutos)."

  /** How long a reset link lives: 1800 seconds. */
  const Ttl := 1800

  /** The account a reset is for: a kind (`admin` or `user`) and an id; empty when there is none. */
  datatype Target = Target(kind: string, id: string)

  /**
   * The target of a reset for the normalised name `username`: the
   * administrator when the name is the administrator's, even if a registered
   * user has it too; otherwise the first registered user with that name.
   */
  function TargetOf(users: seq<User>, username: string, adminUser: string): (t: Target)
    ensures username == NormalizeUsername(adminUser) ==> t == Target("admin", "admin")
    ensures username != NormalizeUsername(adminUser) ==>
      match Lookup(users, username)
      case Some(u) => t == Target("user", u.id) && u in users && NormalizeUsername(u.username) == NormalizeUsername(username)
      case None => t == Target("", "")
  {
    if username == NormalizeUsername(adminUser) then Target("admin", "admin")
    else match Lookup(users, username)
      case Some(u) => Target("user", u.id)
      case None => Target("", "")
  }

  /** The link handed out for a token. */
  function ResetLink(token: string): (link: string)
    ensures |link| == |"reset.php?token="| + |token|
    ensures link[..|"reset.php?token="|] == "reset.php?token=" && link[|"reset.php?token="|..] == token
  {
    "reset.php?token=" + token
  }

  /** The lookup `forgot.php` makes for the normalised name `username`. */
  method Resolve(users: seq<User>, username: string, adminUser: string) returns (t: Target)
    ensures t == TargetOf(users, username, adminUser)
  {
    if username == NormalizeUsername(adminUser) {
      return Target("admin", "admin");
    }
    var user := FindUserByUsername(users, username);
    if user.Some? {
      return Target("user", user.value.id);
    }
    return Target("", "");
  }

  /**
   * The POST branch of `forgot.php`. `newToken` stands for the random token,
   * `now` for `time()` and `createdAt` for the time stamp; `saveOk` says
   * whether the token file could be written.
   */
  method Request(store: TokenStore, users: seq<User>, usernameInput: string, adminUser: string,
                 now: int, newToken: string, createdAt: string, saveOk: bool)
    returns (errors: seq<Problem>, link: string, success: string)
    modifies store
    ensures var username := NormalizeUsername(usernameInput);
      var t := TargetOf(users, username, adminUser);
      if username == [] then
        errors == [UsernameMissing] && link == "" && success == "" && store.records == old(store.records)
      else if t.kind == "" || t.id == "" then
        errors == [UserNotFound] && link == "" && success == "" && store.records == old(store.records)
      else if !saveOk then
        errors == [LinkFailed] && link == "" && success == "" && store.records == old(store.records)
      else
        && errors == [] && link == ResetLink(newToken) && success == Generated
        && store.records == DropPair(old(store.records), t.kind, t.id)
                            + [Token(newToken, Some(t.kind), Some(t.id), now + Ttl, createdAt)]
  {
    link := "";
    success := "";
    var username := NormalizeUsername(usernameInput);
    if username == [] {
      return [UsernameMissing], link, success;
    }
    var t := Resolve(users, username, adminUser);
    if t.kind == "" || t.id == "" {
      return [UserNotFound], link, success;
    }
    var issued := store.Create(t.kind, t.id, Ttl, now, newToken, createdAt, saveOk);
    if issued.None? {
      return [LinkFailed], link, success;
    }
    return [], ResetLink(issued.value.token), Generated;
  }

  /**
   * The link works for 30 minutes: right after a successful request, the
   * store finds the token at any time before `now + 1800` and not from then
   * on (provided no other stored record carries the same token string).
   */
  lemma LinkLivesThirtyMinutes(records: seq<Token>, t: Target, newToken: string, now: int,
                               createdAt: string, later: int)
    requires forall r :: r in records ==> r.token != newToken
    ensures var added := Token(newToken, Some(t.kind), Some(t.id), now + Ttl, createdAt);
      var after := DropPair(records, t.kind, t.id) + [added];
      LastMatch(Live(after, later), newToken) == if later < now + Ttl then Some(added) else None
  {
    IssuedThenFound(records, t.kind, t.id, newToken, Ttl, now, createdAt, later);
  }

  /** A new request for the same account revokes the link handed out before. */
  lemma NewLinkRevokesOld(records: seq<Token>, t: Target, newToken: string, now: int, createdAt: string)
    ensures var added := Token(newToken, Some(t.kind), Some(t.id), now + Ttl, createdAt);
      PairCount(DropPair(records, t.kind, t.id) + [added], t.kind, t.id) == 1
  {
    var added := Token(newToken, Some(t.kind), Some(t.id), now + Ttl, createdAt);
    IssueLeavesOne(records, t.kind, t.id, added);
  }
}

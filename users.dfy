/**
 * The user directory: username normalisation and the case-insensitive,
 * first-match lookup used by login, registration and password recovery
 * (`blog_normalize_username`, `blog_find_user_by_username`,
 * `blog_username_exists`).
 */
module Users {
  import opened Wrappers
  import opened Strings
  import opened Seqs

  /**
   * A stored user. Every field is read as `(string) ($user[key] ?? '')`, so a
   * missing field is the empty string; `updated_at` only exists after a reset.
   */
  datatype User = User(id: string, name: string, username: string, nickname: string,
                       email: string, whatsapp: string, passwordHash: string,
                       createdAt: string, updatedAt: Option<string>)

  /**
   * `strtolower(trim($username))`: the normal form is no longer than the
   * input, has no upper-case letter and no blank at either end.
   */
  function NormalizeUsername(username: string): (r: string)
    ensures |r| == |Trim(username)| && forall k :: 0 <= k < |r| ==> r[k] == LowerChar(Trim(username)[k])
    ensures |r| <= |username|
    ensures forall k :: 0 <= k < |r| ==> !IsUpper(r[k])
    ensures r != [] ==> !IsTrimmable(r[0]) && !IsTrimmable(r[|r| - 1])
  {
    var t := Trim(username);
    LowerKeepsEnds(t);
    ToLower(t)
  }

  /** Lower-casing keeps a character that is not blank not blank, and leaves no upper-case letter. */
  lemma LowerKeepsEnds(t: string)
    requires t != [] ==> !IsTrimmable(t[0]) && !IsTrimmable(t[|t| - 1])
    ensures var r := ToLower(t);
      && (forall k :: 0 <= k < |r| ==> !IsUpper(r[k]))
      && (r != [] ==> !IsTrimmable(r[0]) && !IsTrimmable(r[|r| - 1]))
  {
  }

  /** Normalising twice changes nothing more. */
  lemma NormalizeIdempotent(username: string)
    ensures NormalizeUsername(NormalizeUsername(username)) == NormalizeUsername(username)
  {
    var n := NormalizeUsername(username);
    TrimUntouched(n);
    LowerUntouched(n);
  }

  lemma TrimUntouched(s: string)
    requires s != [] ==> !IsTrimmable(s[0]) && !IsTrimmable(s[|s| - 1])
    ensures Trim(s) == s
  {
    assert TrimStart(s, IsTrimmable) == s;
    assert TrimEnd(s, IsTrimmable) == s;
  }

  lemma LowerUntouched(s: string)
    requires forall k :: 0 <= k < |s| ==> !IsUpper(s[k])
    ensures ToLower(s) == s
  {
  }

  /** Whether a user's normalised username is `needle`: the test of the lookup loop. */
  function NamedAs(needle: string): User -> bool
  {
    (u: User) => NormalizeUsername(u.username) == needle
  }

  /**
   * The lookup `blog_find_user_by_username` answers, as a value: nobody for a
   * blank name, else a stored user with the same normal form, and nobody
   * only when no stored user has it.
   */
  function Lookup(users: seq<User>, username: string): (r: Option<User>)
    ensures NormalizeUsername(username) == [] ==> r.None?
    ensures r.Some? ==> r.value in users && NormalizeUsername(r.value.username) == NormalizeUsername(username)
    ensures r.None? && NormalizeUsername(username) != [] ==>
      forall u :: u in users ==> NormalizeUsername(u.username) != NormalizeUsername(username)
  {
    var needle := NormalizeUsername(username);
    if needle == [] then None
    else match FirstWhere(users, NamedAs(needle), 0)
      case Some(i) => Some(users[i])
      case None => None
  }

  /**
   * `blog_find_user_by_username`: an empty normalised needle finds nobody;
   * otherwise the first user whose normalised username equals it.
   */
  method FindUserByUsername(users: seq<User>, username: string) returns (r: Option<User>)
    ensures r == Lookup(users, username)
    ensures NormalizeUsername(username) == [] ==> r.None?
    ensures r.Some? ==> r.value in users && NormalizeUsername(r.value.username) == NormalizeUsername(username)
    ensures r.None? && NormalizeUsername(username) != [] ==>
      forall u :: u in users ==> NormalizeUsername(u.username) != NormalizeUsername(username)
  {
    var needle := NormalizeUsername(username);
    if needle == [] {
      return None;
    }
    var i := 0;
    while i < |users|
      invariant 0 <= i <= |users|
      invariant FirstWhere(users, NamedAs(needle), i) == FirstWhere(users, NamedAs(needle), 0)
    {
      if NormalizeUsername(users[i].username) == needle {
        return Some(users[i]);
      }
      i := i + 1;
    }
    return None;
  }

  /** `blog_username_exists`: the lookup finds someone. */
  method UsernameExists(users: seq<User>, username: string) returns (b: bool)
    ensures b <==> Lookup(users, username).Some?
    ensures b <==> (NormalizeUsername(username) != [] &&
      exists u :: u in users && NormalizeUsername(u.username) == NormalizeUsername(username))
  {
    var u := FindUserByUsername(users, username);
    b := u.Some?;
  }

  /** Lookup ignores case and surrounding blanks: two spellings with the same normal form find the same user. */
  lemma LookupNormalizes(users: seq<User>, a: string, b: string)
    requires NormalizeUsername(a) == NormalizeUsername(b)
    ensures Lookup(users, a) == Lookup(users, b)
  {
  }

  /** Looking a user up by its own stored username finds a user with that name (the first one). */
  lemma LookupFindsStored(users: seq<User>, i: nat)
    requires i < |users| && NormalizeUsername(users[i].username) != []
    ensures var r := Lookup(users, users[i].username);
      r.Some? && NormalizeUsername(r.value.username) == NormalizeUsername(users[i].username)
  {
    var needle := NormalizeUsername(users[i].username);
    var m := FirstWhere(users, NamedAs(needle), 0);
    assert m.Some? by {
      if m.None? {
        assert false;
      }
    }
    var k := m.value;
    assert Lookup(users, users[i].username) == Some(users[k]);
  }

  /** Whether the normalised usernames of `users` are pairwise distinct. */
  predicate DistinctUsernames(users: seq<User>)
  {
    forall i, j :: 0 <= i < j < |users| ==> NormalizeUsername(users[i].username) != NormalizeUsername(users[j].username)
  }

  /** With distinct usernames, the lookup by a stored username finds exactly that user. */
  lemma LookupUnique(users: seq<User>, i: nat)
    requires DistinctUsernames(users) && i < |users| && NormalizeUsername(users[i].username) != []
    ensures Lookup(users, users[i].username) == Some(users[i])
  {
    var needle := NormalizeUsername(users[i].username);
    var m := FirstWhere(users, NamedAs(needle), 0);
    assert m.Some? by {
      if m.None? {
        assert false;
      }
    }
    var k := m.value;
    assert Lookup(users, users[i].username) == Some(users[k]);
    if k != i {
      assert false;
    }
  }

  /** The user file (`data/users.json`) as a store; a failed save leaves it as it was. */
  class UserStore {
    var users: seq<User>

    constructor(users0: seq<User>)
      ensures users == users0
    {
      users := users0;
    }

    /** `blog_save_users`: the whole list is written. */
    method Save(updated: seq<User>, saveOk: bool) returns (ok: bool)
      modifies this
      ensures ok == saveOk
      ensures users == if saveOk then updated else old(users)
    {
      if saveOk {
        users := updated;
      }
      return saveOk;
    }
  }

  /** Adding a user whose username is not taken keeps the usernames distinct. */
  lemma AddKeepsDistinct(users: seq<User>, u: User)
    requires DistinctUsernames(users)
    requires NormalizeUsername(u.username) != [] && Lookup(users, u.username).None?
    ensures DistinctUsernames(users + [u])
  {
    var needle := NormalizeUsername(u.username);
    assert FirstWhere(users, NamedAs(needle), 0).None?;
    var all := users + [u];
    forall i, j | 0 <= i < j < |all|
      ensures NormalizeUsername(all[i].username) != NormalizeUsername(all[j].username)
    {
      if j == |users| {
        assert all[i] == users[i] && !NamedAs(needle)(users[i]);
      } else {
        assert all[i] == users[i] && all[j] == users[j];
      }
    }
  }
}

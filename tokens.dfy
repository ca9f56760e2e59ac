/**
 * The password-reset token store (`blog_create_reset_token`,
 * `blog_find_reset_token`, `blog_consume_reset_token`): a list of records
 * `{token, type, id, expires_at, created_at}` kept in one file. The file is
 * the `records` field; a save that fails leaves it as it was.
 */
module ResetTokens {
  import opened Wrappers
  import opened Strings
  import opened Seqs

  /**
   * A stored record. `token` and `expires_at` are read as
   * `(string) ($item['token'] ?? '')` and `(int) ($item['expires_at'] ?? 0)`,
   * so a missing one is "" or 0; `type` and `id` may be missing (`isset`).
   */
  datatype Token = Token(token: string, kind: Option<string>, id: Option<string>,
                         expiresAt: int, createdAt: string)

  /** What `blog_create_reset_token` hands back: the token and its expiry. */
  datatype Issued = Issued(token: string, expiresAt: int)

  /** The `array_filter` test of `blog_create_reset_token`: the record is not for `(kind, id)`. */
  predicate KeptFor(t: Token, kind: string, id: string)
  {
    !(t.kind.Some? && t.id.Some?) || t.kind.value != kind || t.id.value != id
  }

  predicate IsFor(t: Token, kind: string, id: string)
  {
    t.kind == Some(kind) && t.id == Some(id)
  }

  /** The records not for `(kind, id)`, in order. */
  function DropPair(records: seq<Token>, kind: string, id: string): (r: seq<Token>)
    ensures forall t :: multiset(r)[t] == if KeptFor(t, kind, id) then multiset(records)[t] else 0
  {
    if records == [] then []
    else
      var init := records[..|records| - 1];
      var last := records[|records| - 1];
      assert records == init + [last];
      DropPair(init, kind, id) + if KeptFor(last, kind, id) then [last] else []
  }

  /** The records still valid at `now`: `expires_at > now`, in order. */
  function Live(records: seq<Token>, now: int): (r: seq<Token>)
    ensures forall t :: multiset(r)[t] == if t.expiresAt > now then multiset(records)[t] else 0
  {
    if records == [] then []
    else
      var init := records[..|records| - 1];
      var last := records[|records| - 1];
      assert records == init + [last];
      Live(init, now) + if last.expiresAt > now then [last] else []
  }

  /** The last record carrying `token`. */
  function LastMatch(records: seq<Token>, token: string): Option<Token>
  {
    if records == [] then None
    else if records[|records| - 1].token == token then Some(records[|records| - 1])
    else LastMatch(records[..|records| - 1], token)
  }

  /** The last match is a record carrying the token, and there is none exactly when no record carries it. */
  lemma {:induction false} LastMatchSound(records: seq<Token>, token: string)
    ensures var r := LastMatch(records, token);
      && (r.Some? ==> r.value in records && r.value.token == token)
      && (r.None? <==> forall t :: t in records ==> t.token != token)
  {
    if records != [] {
      var init := records[..|records| - 1];
      assert records == init + [records[|records| - 1]];
      LastMatchSound(init, token);
    }
  }

  /** Whether a record carries `token`: the test of the consume loop. */
  function HasToken(token: string): Token -> bool
  {
    (t: Token) => t.token == token
  }

  /** The records without the first one carrying `token`, in order. */
  function RemoveFirst(records: seq<Token>, token: string): seq<Token>
  {
    match FirstWhere(records, HasToken(token), 0)
    case Some(j) => records[..j] + records[j + 1..]
    case None => records
  }

  /** How many records carry `token`. */
  function Count(records: seq<Token>, token: string): nat
  {
    if records == [] then 0
    else Count(records[..|records| - 1], token) + if records[|records| - 1].token == token then 1 else 0
  }

  /** How many records are for `(kind, id)`. */
  function PairCount(records: seq<Token>, kind: string, id: string): nat
  {
    if records == [] then 0
    else PairCount(records[..|records| - 1], kind, id) + if IsFor(records[|records| - 1], kind, id) then 1 else 0
  }

  class TokenStore {
    var records: seq<Token>

    constructor(records0: seq<Token>)
      ensures records == records0
    {
      records := records0;
    }

    /**
     * `blog_create_reset_token`: drop every record for `(kind, id)`, append the
     * new one expiring at `now + ttl`, and save; `newToken` stands for the random
     * token and `createdAt` for the time stamp.
     */
    method Create(kind: string, id: string, ttl: int, now: int, newToken: string, createdAt: string, saveOk: bool)
      returns (r: Option<Issued>)
      modifies this
      ensures saveOk ==> records == DropPair(old(records), kind, id) + [Token(newToken, Some(kind), Some(id), now + ttl, createdAt)]
      ensures saveOk ==> r == Some(Issued(newToken, now + ttl))
      ensures !saveOk ==> records == old(records) && r.None?
    {
      var expiresAt := now + ttl;
      var kept := DropPair(records, kind, id);
      var updated := kept + [Token(newToken, Some(kind), Some(id), expiresAt, createdAt)];
      if !saveOk {
        return None;
      }
      records := updated;
      return Some(Issued(newToken, expiresAt));
    }

    /**
     * `blog_find_reset_token`: a blank token finds nothing and touches nothing;
     * otherwise the expired records are purged (the file is rewritten only when
     * some were) and the last valid record with that token is returned.
     */
    method Find(token: string, now: int, saveOk: bool) returns (r: Option<Token>)
      modifies this
      ensures Trim(token) == [] ==> r.None? && records == old(records)
      ensures Trim(token) != [] ==> r == LastMatch(Live(old(records), now), Trim(token))
      ensures Trim(token) != [] ==>
        records == if saveOk && |Live(old(records), now)| != |old(records)| then Live(old(records), now) else old(records)
    {
      var needle := Trim(token);
      if needle == [] {
        return None;
      }
      var valid, found := ScanLive(records, now, needle);
      if |valid| != |records| && saveOk {
        records := valid;
      }
      return found;
    }

    /**
     * `blog_consume_reset_token`: remove the first record carrying `token`,
     * whatever its expiry; the file is saved only when one was removed.
     */
    method Consume(token: string, saveOk: bool) returns (consumed: bool)
      modifies this
      ensures consumed <==> exists t :: t in old(records) && t.token == token
      ensures records == if consumed && saveOk then RemoveFirst(old(records), token) else old(records)
    {
      var remaining;
      remaining, consumed := RemoveFirstScan(records, token);
      if consumed && saveOk {
        records := remaining;
      }
    }
  }

  /**
   * The loop of `blog_find_reset_token`: keep the records valid at `now`, and
   * remember the last valid one carrying `needle`.
   */
  method ScanLive(tokens: seq<Token>, now: int, needle: string) returns (valid: seq<Token>, found: Option<Token>)
    ensures valid == Live(tokens, now)
    ensures found == LastMatch(valid, needle)
  {
    valid := [];
    found := None;
    var i := 0;
    while i < |tokens|
      invariant 0 <= i <= |tokens|
      invariant valid == Live(tokens[..i], now)
      invariant found == LastMatch(valid, needle)
    {
      var item := tokens[i];
      assert tokens[..i + 1] == tokens[..i] + [item];
      LiveSnoc(tokens[..i], item, now);
      LastMatchSnoc(valid, item, needle);
      if item.expiresAt > now {
        valid := valid + [item];
        if item.token == needle {
          found := Some(item);
        }
      }
      i := i + 1;
    }
    assert tokens[..i] == tokens;
  }

  /**
   * The loop of `blog_consume_reset_token`: copy every record except the
   * first one carrying `token`, and say whether there was one.
   */
  method RemoveFirstScan(tokens: seq<Token>, token: string) returns (remaining: seq<Token>, consumed: bool)
    ensures consumed <==> exists t :: t in tokens && t.token == token
    ensures remaining == RemoveFirst(tokens, token)
  {
    remaining := [];
    consumed := false;
    ghost var at := 0;
    var i := 0;
    while i < |tokens|
      invariant 0 <= i <= |tokens|
      invariant !consumed ==> remaining == tokens[..i] && forall j :: 0 <= j < i ==> tokens[j].token != token
      invariant consumed ==> at < i && FirstWhere(tokens, HasToken(token), 0) == Some(at)
      invariant consumed ==> remaining == tokens[..at] + tokens[at + 1..i]
    {
      var item := tokens[i];
      if !consumed && item.token == token {
        consumed := true;
        at := i;
        FirstWhereAt(tokens, HasToken(token), 0, i);
        assert tokens[at + 1..i + 1] == [];
        assert tokens[..i] + [] == tokens[..i];
      } else {
        if consumed {
          assert tokens[at + 1..i + 1] == tokens[at + 1..i] + [item];
        } else {
          assert tokens[..i + 1] == tokens[..i] + [item];
        }
        remaining := remaining + [item];
      }
      i := i + 1;
    }
    if !consumed {
      assert tokens[..i] == tokens;
      FirstWhereAt(tokens, HasToken(token), 0, |tokens|);
    } else {
      assert tokens[at].token == token;
      assert tokens[at + 1..i] == tokens[at + 1..];
    }
  }

  /** After issuing, exactly one stored record is for `(kind, id)`: the new one. */
  lemma {:induction false} IssueLeavesOne(records: seq<Token>, kind: string, id: string, added: Token)
    requires IsFor(added, kind, id)
    ensures PairCount(DropPair(records, kind, id) + [added], kind, id) == 1
  {
    var d := DropPair(records, kind, id);
    PairCountSnoc(d, added, kind, id);
    DropPairNone(records, kind, id);
  }

  lemma {:induction false} DropPairNone(records: seq<Token>, kind: string, id: string)
    ensures PairCount(DropPair(records, kind, id), kind, id) == 0
  {
    if records != [] {
      var init := records[..|records| - 1];
      var last := records[|records| - 1];
      DropPairNone(init, kind, id);
      var d := DropPair(init, kind, id);
      if KeptFor(last, kind, id) {
        PairCountSnoc(d, last, kind, id);
      } else {
        assert d + [] == d;
      }
    }
  }

  lemma LiveSnoc(s: seq<Token>, x: Token, now: int)
    ensures Live(s + [x], now) == Live(s, now) + if x.expiresAt > now then [x] else []
  {
    assert (s + [x])[..|s|] == s;
  }

  lemma LastMatchSnoc(s: seq<Token>, x: Token, token: string)
    ensures LastMatch(s + [x], token) == if x.token == token then Some(x) else LastMatch(s, token)
  {
    assert (s + [x])[..|s|] == s;
  }

  lemma PairCountSnoc(s: seq<Token>, x: Token, kind: string, id: string)
    ensures PairCount(s + [x], kind, id) == PairCount(s, kind, id) + if IsFor(x, kind, id) then 1 else 0
  {
    assert (s + [x])[..|s|] == s;
  }

  /**
   * A freshly issued token is found while it lives and not once it has
   * expired, provided no other record carries the same token string.
   */
  lemma IssuedThenFound(records: seq<Token>, kind: string, id: string, newToken: string,
                        ttl: int, now: int, createdAt: string, later: int)
    requires forall t :: t in records ==> t.token != newToken
    ensures var added := Token(newToken, Some(kind), Some(id), now + ttl, createdAt);
      var after := DropPair(records, kind, id) + [added];
      LastMatch(Live(after, later), newToken) == if later < now + ttl then Some(added) else None
  {
    var added := Token(newToken, Some(kind), Some(id), now + ttl, createdAt);
    var d := DropPair(records, kind, id);
    DropPairKeeps(records, kind, id, newToken);
    LiveSnoc(d, added, later);
    if later < now + ttl {
      LastMatchSnoc(Live(d, later), added, newToken);
    } else {
      assert Live(d, later) + [] == Live(d, later);
      LiveNoMatch(d, later, newToken);
    }
  }

  /** Dropping an account's records brings in no record carrying `token`. */
  lemma DropPairKeeps(records: seq<Token>, kind: string, id: string, token: string)
    requires forall t :: t in records ==> t.token != token
    ensures forall t :: t in DropPair(records, kind, id) ==> t.token != token
  {
    var d := DropPair(records, kind, id);
    forall t | t in d ensures t.token != token {
      assert multiset(d)[t] > 0;
    }
  }

  lemma LiveNoMatch(records: seq<Token>, now: int, token: string)
    requires forall t :: t in records ==> t.token != token
    ensures LastMatch(Live(records, now), token).None?
  {
    var live := Live(records, now);
    forall t | t in live ensures t.token != token {
      assert multiset(live)[t] > 0;
    }
    LastMatchSound(live, token);
  }

  /** A token found is a stored record with that token that has not expired. */
  lemma FoundIsLive(records: seq<Token>, now: int, token: string)
    ensures var r := LastMatch(Live(records, now), token);
      r.Some? ==> r.value in records && r.value.token == token && r.value.expiresAt > now
  {
    var live := Live(records, now);
    var r := LastMatch(live, token);
    LastMatchSound(live, token);
    if r.Some? {
      assert multiset(live)[r.value] > 0;
    }
  }

  /** Consuming removes exactly one record carrying the token, when there is one. */
  lemma ConsumeCount(records: seq<Token>, token: string)
    ensures Count(RemoveFirst(records, token), token) == if Count(records, token) > 0 then Count(records, token) - 1 else 0
  {
    match FirstWhere(records, HasToken(token), 0)
    case Some(j) =>
      assert records == records[..j] + [records[j]] + records[j + 1..];
      CountAppend(records[..j] + [records[j]], records[j + 1..], token);
      CountAppend(records[..j], [records[j]], token);
      CountAppend(records[..j], records[j + 1..], token);
      assert Count([records[j]], token) == 1 by {
        assert [records[j]][..0] == [];
      }
    case None =>
      CountZero(records, token);
  }

  /** Tokens are single use: once the only record carrying a token is consumed, it is never found again. */
  lemma SingleUse(records: seq<Token>, token: string, now: int)
    requires Count(records, token) <= 1
    ensures LastMatch(Live(RemoveFirst(records, token), now), token).None?
  {
    var rest := RemoveFirst(records, token);
    ConsumeCount(records, token);
    CountZero(rest, token);
    LiveNoMatch(rest, now, token);
  }

  /** Purging expired records never adds a record carrying a token. */
  lemma {:induction false} LiveCount(records: seq<Token>, now: int, token: string)
    ensures Count(Live(records, now), token) <= Count(records, token)
  {
    if records != [] {
      var init := records[..|records| - 1];
      var last := records[|records| - 1];
      assert records == init + [last];
      LiveSnoc(init, last, now);
      LiveCount(init, now, token);
      CountSnoc(init, last, token);
      if last.expiresAt > now {
        CountSnoc(Live(init, now), last, token);
      } else {
        assert Live(init, now) + [] == Live(init, now);
      }
    }
  }

  lemma CountSnoc(s: seq<Token>, x: Token, token: string)
    ensures Count(s + [x], token) == Count(s, token) + if x.token == token then 1 else 0
  {
    assert (s + [x])[..|s|] == s;
  }

  lemma {:induction false} CountAppend(a: seq<Token>, b: seq<Token>, token: string)
    ensures Count(a + b, token) == Count(a, token) + Count(b, token)
  {
    if b != [] {
      var init := b[..|b| - 1];
      assert (a + b)[..|a + b| - 1] == a + init;
      CountAppend(a, init, token);
    } else {
      assert a + b == a;
    }
  }

  /** No record carries the token exactly when the count is zero. */
  lemma {:induction false} CountZero(records: seq<Token>, token: string)
    ensures Count(records, token) == 0 <==> forall t :: t in records ==> t.token != token
  {
    if records != [] {
      var init := records[..|records| - 1];
      CountZero(init, token);
      assert records == init + [records[|records| - 1]];
    }
  }
}

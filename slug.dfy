/**
 * `blog_slugify`: the file-name fragment made from a post title. The `iconv`
 * transliteration step is left out: the model passes the text on unchanged.
 */
module Slug {
  import opened Strings

  /** The characters a slug keeps: `[a-z0-9]`. */
  predicate IsSlugChar(c: char)
  {
    IsLower(c) || IsDigit(c)
  }

  predicate IsDash(c: char)
  {
    c == '-'
  }

  /** Only `[a-z0-9-]`, with no two dashes side by side. */
  predicate DashSeparated(s: string)
  {
    && (forall k :: 0 <= k < |s| ==> IsSlugChar(s[k]) || IsDash(s[k]))
    && (forall k :: 0 <= k < |s| - 1 ==> !(IsDash(s[k]) && IsDash(s[k + 1])))
  }

  /** A slug as the blog writes it: non-empty, dash-separated, neither starting nor ending with a dash. */
  predicate WellFormed(s: string)
  {
    s != [] && DashSeparated(s) && !IsDash(s[0]) && !IsDash(s[|s| - 1])
  }

  /** The letters and digits of `s`, in order. */
  function Alnum(s: string): (r: string)
    ensures |r| <= |s|
  {
    if s == [] then []
    else if IsSlugChar(s[|s| - 1]) then Alnum(s[..|s| - 1]) + [s[|s| - 1]]
    else Alnum(s[..|s| - 1])
  }

  /**
   * `preg_replace('/[^a-z0-9]+/', '-', $s)`: every maximal run of other
   * characters becomes a single dash.
   */
  function Collapse(s: string): (r: string)
    ensures DashSeparated(r)
    ensures Alnum(r) == Alnum(s)
    ensures r == [] <==> s == []
    ensures r != [] ==> (IsDash(r[0]) <==> !IsSlugChar(s[0]))
    ensures r != [] ==> (IsDash(r[|r| - 1]) <==> !IsSlugChar(s[|s| - 1]))
  {
    if s == [] then []
    else
      var init := s[..|s| - 1];
      var c := s[|s| - 1];
      var r := Collapse(init);
      assert init != [] ==> init[0] == s[0];
      if IsSlugChar(c) then
        AlnumSnoc(r, c);
        DashSnoc(r, c);
        r + [c]
      else if r != [] && IsDash(r[|r| - 1]) then r
      else
        AlnumSnoc(r, '-');
        DashSnoc(r, '-');
        r + ['-']
  }

  /** A letter, a digit, or a dash after a non-dash, keeps a string dash-separated. */
  lemma DashSnoc(r: string, c: char)
    requires DashSeparated(r) && (IsSlugChar(c) || IsDash(c))
    requires IsDash(c) && r != [] ==> !IsDash(r[|r| - 1])
    ensures DashSeparated(r + [c])
    ensures (r + [c])[|r|] == c && (r != [] ==> (r + [c])[0] == r[0])
  {
  }

  /**
   * `blog_slugify`: trim, lower-case, replace each run of characters outside
   * `[a-z0-9]` by one dash, trim the dashes, and fall back to `post`. The
   * `iconv` transliteration is not modelled, so a non-ASCII letter is dropped
   * rather than spelled in ASCII.
   */
  function Slugify(text: string): (r: string)
  {
    var t := Trim(text);
    if t == [] then "post"
    else
      var s := TrimWith(Collapse(ToLower(t)), IsDash);
      if s != [] then s else "post"
  }

  /** The slug is never empty, uses only `[a-z0-9-]`, and has no leading, trailing or doubled dash. */
  lemma SlugWellFormed(text: string)
    ensures WellFormed(Slugify(text))
  {
    var t := Trim(text);
    if t != [] {
      var c := Collapse(ToLower(t));
      TrimDashes(c);
    }
  }

  /**
   * The slug keeps exactly the letters and digits of the lower-cased, trimmed
   * title, in order; a title without any gives `post`.
   */
  lemma SlugKeepsAlnum(text: string)
    ensures var a := Alnum(ToLower(Trim(text)));
      if a == [] then Slugify(text) == "post" else Alnum(Slugify(text)) == a
  {
    var t := Trim(text);
    var a := Alnum(ToLower(t));
    if t == [] {
      assert ToLower(t) == [];
    } else {
      var c := Collapse(ToLower(t));
      TrimDashes(c);
      var s := TrimWith(c, IsDash);
      if s == [] {
        assert a == [];
      }
    }
  }

  /** Slugifying a slug gives it back. */
  lemma SlugIdempotent(text: string)
    ensures Slugify(Slugify(text)) == Slugify(text)
  {
    var s := Slugify(text);
    SlugWellFormed(text);
    SlugFixed(s);
  }

  /** The slug pipeline leaves a well-formed slug as it is. */
  lemma SlugFixed(s: string)
    requires WellFormed(s)
    ensures Slugify(s) == s
  {
    SlugTrimmed(s);
    CollapseIdentity(s);
    DashTrimmed(s);
  }

  lemma DashTrimmed(s: string)
    requires WellFormed(s)
    ensures TrimWith(s, IsDash) == s
  {
    assert TrimStart(s, IsDash) == s;
    assert TrimEnd(s, IsDash) == s;
  }

  /** `trim` and `strtolower` leave a slug as it is. */
  lemma SlugTrimmed(s: string)
    requires WellFormed(s)
    ensures Trim(s) == s && ToLower(s) == s
  {
    assert !IsTrimmable(s[0]) && !IsTrimmable(s[|s| - 1]);
    assert TrimStart(s, IsTrimmable) == s;
    assert TrimEnd(s, IsTrimmable) == s;
    LowerSlug(s);
  }

  lemma LowerSlug(s: string)
    requires DashSeparated(s)
    ensures ToLower(s) == s
  {
    forall k | 0 <= k < |s|
      ensures ToLower(s)[k] == s[k]
    {
      assert !IsUpper(s[k]);
    }
  }

  /** A dash-separated string is already collapsed. */
  lemma {:induction false} CollapseIdentity(s: string)
    requires DashSeparated(s)
    ensures Collapse(s) == s
  {
    if s != [] {
      var init := s[..|s| - 1];
      assert DashSeparated(init);
      CollapseIdentity(init);
      assert init + [s[|s| - 1]] == s;
    }
  }

  /** `trim($s, '-')` drops only dashes, so the letters and digits stay. */
  lemma TrimDashes(s: string)
    requires DashSeparated(s)
    ensures var t := TrimWith(s, IsDash);
      && DashSeparated(t)
      && Alnum(t) == Alnum(s)
      && (t != [] <==> Alnum(s) != [])
  {
    var u := TrimStart(s, IsDash);
    var t := TrimEnd(u, IsDash);
    DashSeparatedSlice(s, |s| - |u|, |s|);
    TrimStartDashes(s);
    TrimEndDashes(u);
    if t == [] {
      assert Alnum(t) == [];
    } else {
      AlnumNonEmpty(t);
    }
  }

  lemma TrimStartDashes(s: string)
    ensures Alnum(TrimStart(s, IsDash)) == Alnum(s)
  {
    var u := TrimStart(s, IsDash);
    var dropped := s[..|s| - |u|];
    assert s == dropped + u;
    forall k | 0 <= k < |dropped|
      ensures IsDash(dropped[k])
    {
      assert dropped[k] == s[k];
    }
    AlnumDashes(dropped);
    AlnumAppend(dropped, u);
  }

  lemma TrimEndDashes(u: string)
    requires DashSeparated(u)
    ensures var t := TrimEnd(u, IsDash); DashSeparated(t) && Alnum(t) == Alnum(u)
  {
    var t := TrimEnd(u, IsDash);
    assert u == t + u[|t|..];
    DashSeparatedSlice(u, 0, |t|);
    AlnumDashes(u[|t|..]);
    AlnumAppend(t, u[|t|..]);
  }

  lemma DashSeparatedSlice(s: string, i: nat, j: nat)
    requires DashSeparated(s) && i <= j <= |s|
    ensures DashSeparated(s[i..j])
  {
    var t := s[i..j];
    assert forall k :: 0 <= k < |t| ==> t[k] == s[i + k];
  }

  lemma AlnumSnoc(s: string, c: char)
    ensures Alnum(s + [c]) == if IsSlugChar(c) then Alnum(s) + [c] else Alnum(s)
  {
    assert (s + [c])[..|s|] == s;
  }

  lemma {:induction false} AlnumAppend(s: string, t: string)
    ensures Alnum(s + t) == Alnum(s) + Alnum(t)
  {
    if t != [] {
      var init := t[..|t| - 1];
      var c := t[|t| - 1];
      assert s + t == (s + init) + [c];
      assert t == init + [c];
      AlnumAppend(s, init);
      AlnumSnoc(s + init, c);
      AlnumSnoc(init, c);
    } else {
      assert s + t == s;
    }
  }

  lemma {:induction false} AlnumDashes(s: string)
    requires forall k :: 0 <= k < |s| ==> IsDash(s[k])
    ensures Alnum(s) == []
  {
    if s != [] {
      AlnumDashes(s[..|s| - 1]);
    }
  }

  /** A dash-separated string that is not all dashes has a letter or digit. */
  lemma AlnumNonEmpty(s: string)
    requires DashSeparated(s) && s != [] && !IsDash(s[0])
    ensures Alnum(s) != []
  {
    assert s == [s[0]] + s[1..];
    AlnumAppend([s[0]], s[1..]);
    AlnumSnoc([], s[0]);
    assert [] + [s[0]] == [s[0]];
  }
}

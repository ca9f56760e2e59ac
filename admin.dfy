/**
 * The publishing panel (`admin.php`): behind the login gate, a POST with a
 * title, a text, an optional publication time and an image becomes a new
 * post appended to the post file; the panel lists every post newest first,
 * each text cut to 140 bytes.
 */
module Admin {
  import opened Wrappers
  import opened Strings
  import opened Posts
  import opened Upload
  import opened Auth

  /** The post file (`data/posts.json`) as a store; a failed save leaves it as it was. */
  class PostStore {
    var posts: seq<Post>

    constructor(posts0: seq<Post>)
      ensures posts == posts0
    {
      posts := posts0;
    }

    /** `blog_save_posts`: the whole list is written. */
    method Save(updated: seq<Post>, saveOk: bool) returns (ok: bool)
      modifies this
      ensures ok == saveOk
      ensures posts == if saveOk then updated else old(posts)
    {
      if saveOk {
        posts := updated;
      }
      return saveOk;
    }
  }

  datatype Problem =
    | TitleRequired | ContentRequired | ImageRequired | PublishedAtInvalid
    | UploadRefused(message: string) | SaveFailed

  function Message(p: Problem): string
  {
    match p
    case TitleRequired => "O título é obrigatório."
    case ContentRequired => "O texto do artigo é obrigatório."
    case ImageRequired => "A imagem do artigo é obrigatória."
    case PublishedAtInvalid => "Data/hora de publicação inválida."
    case UploadRefused(m) => m
    case SaveFailed => "Não foi possível salvar o artigo."
  }

  const Published := "Artigo publicado com sucesso."

  /** The POST fields (None when absent) and the `image` entry of `$_FILES` (None when absent or empty). */
  datatype PostForm = PostForm(title: Option<string>, content: Option<string>, publishedAt: Option<string>,
                               image: Option<UploadedFile>)

  /**
   * The image test: no entry, or an entry whose `(int) error` is
   * `UPLOAD_ERR_NO_FILE`. A missing `error` casts to 0, so it passes here.
   */
  predicate NoImage(image: Option<UploadedFile>)
  {
    image.None? || image.value.error.GetOr(0) == ErrNoFile
  }

  /**
   * The field checks of `admin.php`, in order, on the trimmed fields;
   * `parseLocal` stands for `DateTime::createFromFormat('Y-m-d\TH:i', ...)`
   * followed by `format('Y-m-d H:i:s')`, None when it fails.
   */
  function CheckForm(title: string, content: string, publishedInput: string, image: Option<UploadedFile>,
                     parseLocal: string -> Option<string>): (r: seq<Problem>)
    ensures TitleRequired in r <==> title == []
    ensures ContentRequired in r <==> content == []
    ensures ImageRequired in r <==> NoImage(image)
    ensures PublishedAtInvalid in r <==> publishedInput != [] && parseLocal(publishedInput).None?
    ensures forall p :: p in r ==> p in {TitleRequired, ContentRequired, ImageRequired, PublishedAtInvalid}
  {
    (if title == [] then [TitleRequired] else [])
    + (if content == [] then [ContentRequired] else [])
    + (if NoImage(image) then [ImageRequired] else [])
    + (if publishedInput != [] && parseLocal(publishedInput).None? then [PublishedAtInvalid] else [])
  }

  /** The publication time: the parsed input, or the current time `nowStamp` when the field is blank. */
  function PublishedAt(publishedInput: string, parseLocal: string -> Option<string>, nowStamp: string): string
  {
    if publishedInput == [] then nowStamp else parseLocal(publishedInput).GetOr(nowStamp)
  }

  /** What a POST amounts to before saving: the post to append, or the problems to show. */
  datatype Draft = Accepted(post: Post) | Rejected(problems: seq<Problem>)

  /**
   * The POST branch up to the save: the field checks, then, only when they
   * pass, the image upload; `newId` stands for `bin2hex(random_bytes(8))` and
   * `nowStamp` for `date('Y-m-d H:i:s')`.
   */
  function MakeDraft(form: PostForm, parseLocal: string -> Option<string>, host: Host,
                     newId: string, nowStamp: string): (d: Draft)
    ensures d.Rejected? ==> d.problems != []
    ensures var problems := CheckForm(Trim(form.title.GetOr("")), Trim(form.content.GetOr("")),
                                      Trim(form.publishedAt.GetOr("")), form.image, parseLocal);
      problems != [] ==> d == Rejected(problems)
  {
    var title := Trim(form.title.GetOr(""));
    var content := Trim(form.content.GetOr(""));
    var input := Trim(form.publishedAt.GetOr(""));
    var problems := CheckForm(title, content, input, form.image, parseLocal);
    if problems != [] then Rejected(problems)
    else match HandleImageUpload(form.image.value, title, host)
      case Refused(m) => Rejected([UploadRefused(m)])
      case Stored(path) => Accepted(Post(newId, title, content, path, PublishedAt(input, parseLocal, nowStamp), nowStamp))
  }

  /** A post is accepted exactly when every field check passes and the upload stores the image. */
  lemma DraftAcceptedExactly(form: PostForm, parseLocal: string -> Option<string>, host: Host,
                             newId: string, nowStamp: string)
    ensures var title := Trim(form.title.GetOr(""));
      var problems := CheckForm(title, Trim(form.content.GetOr("")), Trim(form.publishedAt.GetOr("")),
                                form.image, parseLocal);
      MakeDraft(form, parseLocal, host, newId, nowStamp).Accepted? <==>
        problems == [] && form.image.Some? && HandleImageUpload(form.image.value, title, host).Stored?
  {
  }

  /**
   * An accepted post carries the trimmed title and text, both non-empty, the
   * stored image path, the parsed publication time (the current time when
   * the field is blank), the new id and the current time as creation time.
   */
  lemma DraftFields(form: PostForm, parseLocal: string -> Option<string>, host: Host,
                    newId: string, nowStamp: string)
    requires MakeDraft(form, parseLocal, host, newId, nowStamp).Accepted?
    ensures var post := MakeDraft(form, parseLocal, host, newId, nowStamp).post;
      var title := Trim(form.title.GetOr(""));
      var input := Trim(form.publishedAt.GetOr(""));
      && form.image.Some?
      && (input != [] ==> parseLocal(input).Some?)
      && post.id == newId && post.title == title && post.content == Trim(form.content.GetOr(""))
      && post.title != [] && post.content != []
      && post.imagePath == HandleImageUpload(form.image.value, title, host).path
      && post.publishedAt == (if input == [] then nowStamp else parseLocal(input).value)
      && post.createdAt == nowStamp
  {
    var title := Trim(form.title.GetOr(""));
    var content := Trim(form.content.GetOr(""));
    var input := Trim(form.publishedAt.GetOr(""));
    var problems := CheckForm(title, content, input, form.image, parseLocal);
    assert problems == [];
    assert ImageRequired !in problems && PublishedAtInvalid !in problems;
    var stored := HandleImageUpload(form.image.value, title, host);
    assert MakeDraft(form, parseLocal, host, newId, nowStamp)
        == Accepted(Post(newId, title, content, stored.path, PublishedAt(input, parseLocal, nowStamp), nowStamp));
  }

  /**
   * An `image` entry without an `error` field passes the panel's own test
   * (it casts to 0) but the upload reads it as "no file" and refuses.
   */
  lemma MissingErrorField(form: PostForm, parseLocal: string -> Option<string>, host: Host,
                          newId: string, nowStamp: string)
    requires form.image.Some? && form.image.value.error.None?
    requires Trim(form.title.GetOr("")) != [] && Trim(form.content.GetOr("")) != []
    requires Trim(form.publishedAt.GetOr("")) == []
    ensures MakeDraft(form, parseLocal, host, newId, nowStamp)
            == Rejected([UploadRefused("Selecione uma imagem para enviar.")])
  {
    var title := Trim(form.title.GetOr(""));
    var content := Trim(form.content.GetOr(""));
    assert CheckForm(title, content, [], form.image, parseLocal) == [];
    assert HandleImageUpload(form.image.value, title, host) == Refused(ErrorMessage(ErrNoFile));
  }

  /** An accepted post's image lies under `uploads/`, named after the title's slug. */
  lemma AcceptedImagePath(form: PostForm, parseLocal: string -> Option<string>, host: Host,
                          newId: string, nowStamp: string)
    requires MakeDraft(form, parseLocal, host, newId, nowStamp).Accepted?
    ensures var post := MakeDraft(form, parseLocal, host, newId, nowStamp).post;
      var extension := Extension(form.image.value.name);
      && extension in Allowed
      && post.imagePath == "uploads/" + host.stamp + "-" + Slug.Slugify(post.title) + "." + extension
  {
    var title := Trim(form.title.GetOr(""));
    StoredPathShape(form.image.value, title, host);
  }

  /** PHP 8 `substr($s, $start)`'s start offset: negative counts from the end; past the end is the end. */
  function SubstrFrom(n: nat, start: int): (i: nat)
    ensures i <= n
  {
    if start < 0 then (if n + start < 0 then 0 else n + start)
    else if start > n then n
    else start
  }

  /** PHP 8 `substr($s, $start, $length)`: a negative length leaves that many bytes off the end. */
  function Substr(s: string, start: int, length: int): (r: string)
    ensures |r| <= |s|
    ensures var i := SubstrFrom(|s|, start); i + |r| <= |s| && r == s[i..i + |r|]
    ensures length >= 0 ==> |r| <= length
    ensures 0 <= start <= |s| && 0 <= length <= |s| - start ==> r == s[start..start + length]
  {
    var i := SubstrFrom(|s|, start);
    var rest := |s| - i;
    var n := if length < 0 then (if rest + length < 0 then 0 else rest + length)
             else if length > rest then rest else length;
    s[i..i + n]
  }

  /**
   * The `mb_strimwidth` fallback `admin.php` defines when the mbstring
   * extension is missing: the slice, and when the whole string is wider than
   * `width`, the slice right-trimmed with the marker appended.
   */
  function StrimWidth(s: string, start: int, width: int, marker: string): string
  {
    var slice := Substr(s, start, width);
    if |s| > width then TrimRight(slice) + marker else slice
  }

  /** A text that fits is shown whole. */
  lemma StrimWidthFits(s: string, width: int, marker: string)
    requires |s| <= width
    ensures StrimWidth(s, 0, width, marker) == s
  {
  }

  /**
   * A longer text is cut to its first `width` bytes, right-trimmed, followed
   * by the marker, so the excerpt is at most `width + |marker|` bytes.
   */
  lemma StrimWidthCuts(s: string, width: int, marker: string)
    requires 0 <= width < |s|
    ensures StrimWidth(s, 0, width, marker) == TrimRight(s[..width]) + marker
    ensures var r := StrimWidth(s, 0, width, marker);
      && |r| <= width + |marker|
      && r[|r| - |marker|..] == marker
      && r[..|r| - |marker|] == s[..|r| - |marker|]
  {
    var slice := Substr(s, 0, width);
    assert slice == s[..width];
    var cut := TrimRight(slice);
    assert cut == slice[..|cut|];
    var r := cut + marker;
    assert r[..|cut|] == cut;
    assert r[|cut|..] == marker;
  }

  /**
   * The excerpt the panel lists for a post: the whole text when it has at
   * most 140 bytes, else its first 140 bytes right-trimmed and followed by
   * `...`, 143 bytes at most.
   */
  function Excerpt(p: Post): (r: string)
    ensures |p.content| <= 140 ==> r == p.content
    ensures |p.content| > 140 ==> r == TrimRight(p.content[..140]) + "..."
    ensures |p.content| > 140 ==>
      && 3 <= |r| <= 143 && r[|r| - 3..] == "..." && r[..|r| - 3] == p.content[..|r| - 3]
  {
    var r := StrimWidth(p.content, 0, 140, "...");
    if |p.content| <= 140 then
      StrimWidthFits(p.content, 140, "...");
      r
    else
      StrimWidthCuts(p.content, 140, "...");
      r
  }

  /**
   * `admin.php`. Without a login the visitor is sent to `login.php`. A POST
   * that passes every check and saves is answered with a redirect to
   * `admin.php?status=ok`; otherwise the panel shows the problems, the
   * success notice when `status=ok` was asked for, and the stored posts newest
   * first. `parse` stands for `strtotime`.
   */
  method Panel(session: Session, store: PostStore, isPost: bool, form: PostForm, statusOk: bool,
               parseLocal: string -> Option<string>, host: Host, newId: string, nowStamp: string,
               saveOk: bool, parse: string -> Option<int>)
    returns (redirect: Option<string>, errors: seq<Problem>, success: string, listing: seq<Post>)
    modifies store
    ensures !IsLoggedIn(session.data) ==>
      redirect == Some("login.php") && errors == [] && listing == [] && store.posts == old(store.posts)
    ensures IsLoggedIn(session.data) && !isPost ==>
      && redirect.None? && errors == [] && store.posts == old(store.posts)
      && success == (if statusOk then Published else "")
      && listing == SortPosts(store.posts, "desc", parse)
    ensures IsLoggedIn(session.data) && isPost ==>
      match MakeDraft(form, parseLocal, host, newId, nowStamp)
      case Rejected(problems) =>
        && redirect.None? && errors == problems && store.posts == old(store.posts)
        && success == (if statusOk then Published else "")
        && listing == SortPosts(store.posts, "desc", parse)
      case Accepted(post) =>
        if saveOk then
          redirect == Some("admin.php?status=ok") && errors == [] && store.posts == old(store.posts) + [post]
        else
          && redirect.None? && errors == [SaveFailed] && store.posts == old(store.posts)
          && success == (if statusOk then Published else "")
          && listing == SortPosts(store.posts, "desc", parse)
  {
    errors := [];
    success := "";
    listing := [];
    redirect := session.RequireLogin();
    if redirect.Some? {
      return;
    }
    if isPost {
      var saved;
      saved, errors := Publish(store, MakeDraft(form, parseLocal, host, newId, nowStamp), saveOk);
      if saved {
        return Some("admin.php?status=ok"), errors, success, listing;
      }
    }
    if statusOk {
      success := Published;
    }
    listing := SortPosts(store.posts, "desc", parse);
  }

  /** The save step of a POST: an accepted post is appended and the list written; a rejected one changes nothing. */
  method Publish(store: PostStore, draft: Draft, saveOk: bool) returns (saved: bool, errors: seq<Problem>)
    modifies store
    ensures draft.Rejected? ==> !saved && errors == draft.problems && store.posts == old(store.posts)
    ensures draft.Accepted? ==>
      && saved == saveOk && errors == (if saveOk then [] else [SaveFailed])
      && store.posts == (if saveOk then old(store.posts) + [draft.post] else old(store.posts))
  {
    if draft.Rejected? {
      return false, draft.problems;
    }
    saved := store.Save(store.posts + [draft.post], saveOk);
    errors := if saved then [] else [SaveFailed];
  }

  /** A published post is kept: it appears in the panel's listing after the redirect. */
  lemma PublishedPostListed(posts: seq<Post>, post: Post, parse: string -> Option<int>)
    ensures post in SortPosts(posts + [post], "desc", parse)
  {
    var listed := SortPosts(posts + [post], "desc", parse);
    assert multiset(posts + [post])[post] > 0;
    assert multiset(listed)[post] > 0;
  }
}

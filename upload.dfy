/**
 * `blog_handle_image_upload` and `blog_upload_error_message`: the checks an
 * uploaded post image goes through before it is moved into `uploads/`, and
 * the file name it is stored under. The file system and the image sniffing
 * are oracles.
 */
module Upload {
  import opened Wrappers
  import opened Strings
  import opened Slug

  // PHP's UPLOAD_ERR_* codes.
  const ErrOk := 0
  const ErrIniSize := 1
  const ErrFormSize := 2
  const ErrPartial := 3
  const ErrNoFile := 4
  const ErrNoTmpDir := 6
  const ErrCantWrite := 7
  const ErrExtension := 8

  /** The size limit: 5 MB. */
  const MaxBytes := 5 * 1024 * 1024

  /** `BLOG_UPLOADS_WEB_PATH`. */
  const WebPath := "uploads"

  /** The extensions accepted, after lower-casing. */
  const Allowed: seq<string> := ["jpg", "jpeg", "png", "gif", "webp"]

  /**
   * One entry of `$_FILES`. A missing `error` is None (read as
   * `UPLOAD_ERR_NO_FILE`); a missing name or temporary path is "" and a
   * missing size is 0, exactly as the source reads them.
   */
  datatype UploadedFile = UploadedFile(name: string, error: Option<int>, tmpName: string, size: int)

  /**
   * What the server answers: `is_uploaded_file`, `getimagesize($tmp) !== false`,
   * `is_writable(BLOG_UPLOADS_DIR)`, whether `move_uploaded_file` succeeds,
   * and `date('YmdHis')` at the time of the request.
   */
  datatype Host = Host(isUploaded: string -> bool, isImage: string -> bool, writable: bool,
                       moveOk: bool, stamp: string)

  /** The two-element array the source returns: `[true, path]` or `[false, message]`. */
  datatype Outcome = Stored(path: string) | Refused(message: string)

  /** `blog_upload_error_message`. */
  function ErrorMessage(code: int): (m: string)
    ensures m != []
    ensures code == ErrIniSize || code == ErrFormSize ==> m == "A imagem excede o tamanho maximo permitido."
    ensures code !in {ErrIniSize, ErrFormSize, ErrPartial, ErrNoFile, ErrNoTmpDir, ErrCantWrite, ErrExtension} ==>
      m == "Falha no upload da imagem."
  {
    if code == ErrIniSize || code == ErrFormSize then "A imagem excede o tamanho maximo permitido."
    else if code == ErrPartial then "Upload incompleto. Tente novamente."
    else if code == ErrNoFile then "Selecione uma imagem para enviar."
    else if code == ErrNoTmpDir then "Pasta temporaria do servidor indisponivel."
    else if code == ErrCantWrite then "Falha ao gravar a imagem no servidor."
    else if code == ErrExtension then "Upload bloqueado por extensao do PHP."
    else "Falha no upload da imagem."
  }

  /**
   * The text after the last dot of the last path component, if that component
   * has a dot: what `pathinfo($name, PATHINFO_EXTENSION)` reads.
   */
  function RawExtension(name: string): (r: Option<string>)
    ensures r.Some? ==> (|r.value| < |name| && name[|name| - |r.value| - 1] == '.'
      && name[|name| - |r.value|..] == r.value)
    ensures r.Some? ==> forall k :: 0 <= k < |r.value| ==> r.value[k] != '.' && r.value[k] != '/'
    ensures r.None? ==> forall k :: 0 <= k < |name| && name[k] == '.' ==> exists j :: k < j < |name| && name[j] == '/'
  {
    if name == [] then None
    else
      var c := name[|name| - 1];
      var init := name[..|name| - 1];
      if c == '.' then Some([])
      else if c == '/' then None
      else match RawExtension(init)
        case Some(e) => Some(e + [c])
        case None => None
  }

  /** `strtolower(pathinfo($name, PATHINFO_EXTENSION))`: "" when there is none. */
  function Extension(name: string): (r: string)
    ensures |r| < |name| || r == []
    ensures forall k :: 0 <= k < |r| ==> !IsUpper(r[k]) && r[k] != '.' && r[k] != '/'
  {
    match RawExtension(name)
    case Some(e) => ToLower(e)
    case None => []
  }

  /** The name the image is stored under: `date('YmdHis') . '-' . blog_slugify($title) . '.' . $extension`. */
  function StoredName(stamp: string, title: string, extension: string): string
  {
    stamp + "-" + Slugify(title) + "." + extension
  }

  /** `blog_handle_image_upload`: the first failing check gives its message; otherwise the web path. */
  function HandleImageUpload(file: UploadedFile, title: string, host: Host): (r: Outcome)
    ensures r.Stored? <==>
      && file.error.GetOr(ErrNoFile) == ErrOk
      && file.tmpName != [] && host.isUploaded(file.tmpName)
      && file.size <= MaxBytes
      && host.isImage(file.tmpName)
      && Extension(file.name) in Allowed
      && host.writable && host.moveOk
    ensures r.Stored? ==> r.path == WebPath + "/" + StoredName(host.stamp, title, Extension(file.name))
    ensures file.error.GetOr(ErrNoFile) != ErrOk ==> r == Refused(ErrorMessage(file.error.GetOr(ErrNoFile)))
  {
    var code := file.error.GetOr(ErrNoFile);
    if code != ErrOk then Refused(ErrorMessage(code))
    else if file.tmpName == [] || !host.isUploaded(file.tmpName) then Refused("Falha no upload da imagem.")
    else if file.size > MaxBytes then Refused("A imagem deve ter no maximo 5 MB.")
    else if !host.isImage(file.tmpName) then Refused("O arquivo enviado nao e uma imagem.")
    else
      var extension := Extension(file.name);
      if extension !in Allowed then Refused("Formato nao suportado. Use JPG, PNG, GIF ou WEBP.")
      else if !host.writable then Refused("A pasta uploads/ nao esta com permissao de escrita.")
      else if !host.moveOk then Refused("Nao foi possivel salvar a imagem.")
      else Stored(WebPath + "/" + StoredName(host.stamp, title, extension))
  }

  /**
   * A stored image lands directly under `uploads/`, its name ends in one of
   * the accepted extensions, and the part between the time stamp and the
   * extension is a well-formed slug of the title.
   */
  lemma StoredPathShape(file: UploadedFile, title: string, host: Host)
    requires HandleImageUpload(file, title, host).Stored?
    ensures var path := HandleImageUpload(file, title, host).path;
      var extension := Extension(file.name);
      var slug := Slugify(title);
      && extension in Allowed
      && path == "uploads/" + host.stamp + "-" + slug + "." + extension
      && WellFormed(slug)
  {
    SlugWellFormed(title);
  }

  /** The extension test ignores case: `photo.JPG` is accepted like `photo.jpg`. */
  lemma ExtensionIgnoresCase()
    ensures Extension("photo.JPG") == "jpg" && "jpg" in Allowed
  {
    RawJpg();
    assert ToLower("JPG") == [LowerChar('J')] + ToLower("PG");
    assert ToLower("PG") == [LowerChar('P')] + ToLower("G");
  }

  lemma RawJpg()
    ensures RawExtension("photo.JPG") == Some("JPG")
  {
    RawJp();
    RawExtensionSnoc("photo.JP", 'G');
    assert "photo.JP" + ['G'] == "photo.JPG";
  }

  lemma RawJp()
    ensures RawExtension("photo.JP") == Some("JP")
  {
    RawJ();
    RawExtensionSnoc("photo.J", 'P');
    assert "photo.J" + ['P'] == "photo.JP";
  }

  lemma RawJ()
    ensures RawExtension("photo.J") == Some("J")
  {
    RawExtensionSnoc("photo", '.');
    assert "photo" + ['.'] == "photo.";
    RawExtensionSnoc("photo.", 'J');
    assert "photo." + ['J'] == "photo.J";
  }

  /** A name whose last dot sits in a directory part has no extension. */
  lemma NoExtension()
    ensures Extension("a.b/c") == []
  {
    RawExtensionSnoc("a.b", '/');
    RawExtensionSnoc("a.b/", 'c');
  }

  lemma RawExtensionSnoc(s: string, c: char)
    ensures RawExtension(s + [c]) ==
      if c == '.' then Some([])
      else if c == '/' then None
      else match RawExtension(s)
        case Some(e) => Some(e + [c])
        case None => None
  {
    assert (s + [c])[..|s|] == s;
  }
}

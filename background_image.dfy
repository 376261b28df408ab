/** The `choose-background` handler of main.js: the picked file's extension
    chooses a MIME type, and the file's base64 text is wrapped in a
    `data:` URL (RFC 2397, section 3). The dialog, the file system,
    `path.extname` and the base64 encoder are parameters of the model. */
module BackgroundImage {
  import opened Wrappers
  import opened Text

  const OctetStream := "application/octet-stream"

  /** The extensions with an image type of their own. */
  const KnownExtensions := {"jpg", "jpeg", "png", "gif", "webp", "bmp"}

  /** `s.replace(".", "")` with a string pattern: only the first dot goes. */
  function DropFirstDot(s: string): string {
    match IndexOf(s, ".")
    case Some(i) => s[..i] + s[i + 1..]
    case None => s
  }

  /** A string without a dot is left as it is; otherwise the first dot is
      removed and everything around it kept, later dots included. */
  lemma DropFirstDotCharacterised(pre: string, post: string)
    ensures '.' !in pre ==> DropFirstDot(pre + "." + post) == pre + post
    ensures '.' !in post ==> DropFirstDot(post) == post
  {
    if '.' !in pre {
      assert pre + "." + post == pre + ['.'] + post;
      IndexOfAfterPrefix(pre, '.', post);
      assert (pre + "." + post)[..|pre|] == pre;
      assert (pre + "." + post)[|pre| + 1..] == post;
    }
    if '.' !in post {
      ContainsChar(post, '.');
    }
  }

  /** `path.extname(filePath).toLowerCase().replace(".", "")`, given what
      `path.extname` returned. */
  function NormalizeExtension(extname: string): string {
    DropFirstDot(ToLowerAscii(extname))
  }

  /** The conditional chain from extension to MIME type. */
  function MimeType(ext: string): string {
    if ext == "jpg" || ext == "jpeg" then "image/jpeg"
    else if ext == "png" then "image/png"
    else if ext == "gif" then "image/gif"
    else if ext == "webp" then "image/webp"
    else if ext == "bmp" then "image/bmp"
    else OctetStream
  }

  /** A known extension names an image type whose subtype is the extension
      itself, with `jpg` spelled `jpeg`; every other extension falls back to
      a generic byte stream. */
  lemma MimeTypeCharacterised(ext: string)
    ensures ext in KnownExtensions ==>
      MimeType(ext) == "image/" + (if ext == "jpg" then "jpeg" else ext)
    ensures ext !in KnownExtensions ==> MimeType(ext) == OctetStream
  {
  }

  /** No MIME type the handler produces holds a comma. */
  lemma MimeTypeLacksComma(ext: string)
    ensures ',' !in MimeType(ext)
  {
  }

  /** The MIME type for what `path.extname` returned. */
  function MimeFor(extname: string): string {
    MimeType(NormalizeExtension(extname))
  }

  /** An extension `.x` is looked up as `x` in lower case, whatever the case
      of its letters. */
  lemma NormalizeExtname(x: string)
    requires '.' !in x
    ensures NormalizeExtension("." + x) == ToLowerAscii(x)
  {
    var lower := ToLowerAscii(x);
    assert ToLowerAscii("." + x) == "." + lower;
    assert '.' !in lower by {
      forall k | 0 <= k < |x| ensures lower[k] != '.' {
        assert x[k] != '.';
      }
    }
    DropFirstDotCharacterised([], lower);
    assert [] + "." + lower == "." + lower;
  }

  /** Lower-casing what `path.extname` returned changes nothing. */
  lemma MimeForCaseInsensitive(extname: string)
    ensures MimeFor(ToLowerAscii(extname)) == MimeFor(extname)
  {
    ToLowerIdempotent(extname);
  }

  /** `photo.PNG` is served as `image/png`. */
  lemma UpperCasePngExample(extname: string)
    requires extname == ".PNG"
    ensures MimeFor(extname) == "image/png"
  {
    assert extname == "." + "PNG";
    NormalizeExtname("PNG");
    assert ToLowerAscii("PNG") == "png";
    assert NormalizeExtension(extname) == "png";
  }

  /** A file with no extension is a byte stream. */
  lemma NoExtensionExample(extname: string)
    requires extname == ""
    ensures MimeFor(extname) == OctetStream
  {
    assert ToLowerAscii(extname) == [];
  }

  const DataScheme := "data:"
  const Base64Marker := ";base64"

  /** The template `data:${mime};base64,${base64}`. */
  function DataUrl(mime: string, payload: string): string {
    DataScheme + mime + Base64Marker + "," + payload
  }

  /** Reads a base64 `data:` URL (RFC 2397, section 3): the scheme, a media
      type ending in `;base64`, the first comma, then the data. */
  function ParseDataUrl(u: string): Option<(string, string)> {
    if |u| < |DataScheme| || u[..|DataScheme|] != DataScheme then None
    else
      var rest := u[|DataScheme|..];
      match IndexOf(rest, ",")
      case None => None
      case Some(i) =>
        var media := rest[..i];
        var n := |media| - |Base64Marker|;
        if n < 0 || media[n..] != Base64Marker then None
        else Some((media[..n], rest[i + 1..]))
  }

  /** The media type and the payload come back out of the URL when the media
      type holds no comma; the payload is unrestricted. */
  lemma DataUrlRoundTrip(mime: string, payload: string)
    requires ',' !in mime
    ensures ParseDataUrl(DataUrl(mime, payload)) == Some((mime, payload))
  {
    var u := DataUrl(mime, payload);
    var media := mime + Base64Marker;
    assert u[..|DataScheme|] == DataScheme;
    var rest := u[|DataScheme|..];
    assert rest == media + [','] + payload;
    assert ',' !in media by {
      forall k | 0 <= k < |media| ensures media[k] != ',' {
        if k < |mime| {
          assert media[k] == mime[k];
        }
      }
    }
    IndexOfAfterPrefix(media, ',', payload);
    assert rest[..|media|] == media;
    assert media[|mime|..] == Base64Marker;
    assert media[..|mime|] == mime;
    assert rest[|media| + 1..] == payload;
  }

  /** Distinct type and payload pairs give distinct URLs when neither type
      holds a comma, as no type from `MimeType` does. */
  lemma DataUrlInjective(m1: string, p1: string, m2: string, p2: string)
    requires ',' !in m1 && ',' !in m2
    requires DataUrl(m1, p1) == DataUrl(m2, p2)
    ensures m1 == m2 && p1 == p2
  {
    DataUrlRoundTrip(m1, p1);
    DataUrlRoundTrip(m2, p2);
  }

  /** What the open dialog resolves to: whether it was cancelled and the
      chosen paths, absent when the dialog gave none. */
  datatype DialogResult = DialogResult(canceled: bool, filePaths: Option<seq<string>>)

  /** The first chosen path, when there is a non-empty one. */
  function ChosenPath(d: DialogResult): Option<string> {
    if d.canceled || d.filePaths.None? || |d.filePaths.value| == 0
       || d.filePaths.value[0] == "" then None
    else Some(d.filePaths.value[0])
  }

  /** The handler's reply: `None` stands for `null`. `extname` plays
      `path.extname`; `read` plays reading the file and encoding it in
      base64, `None` when reading throws. */
  function ChooseBackground(d: DialogResult, extname: string -> string,
                            read: string -> Option<string>): Option<string> {
    match ChosenPath(d)
    case None => None
    case Some(path) =>
      match read(path)
      case None => None
      case Some(payload) => Some(DataUrl(MimeFor(extname(path)), payload))
  }

  /** The handler answers `null` exactly when the dialog was cancelled, gave
      no paths or an empty first path, or the file could not be read;
      otherwise its answer is a data URL that reads back as the MIME type of
      the first path and that file's base64 text. */
  lemma ChooseBackgroundOutcome(d: DialogResult, extname: string -> string,
                                read: string -> Option<string>)
    ensures var r := ChooseBackground(d, extname, read);
      && (r.None? <==>
            || d.canceled || d.filePaths.None? || d.filePaths.value == []
            || d.filePaths.value[0] == "" || read(d.filePaths.value[0]).None?)
      && (r.Some? ==>
            var path := d.filePaths.value[0];
            ParseDataUrl(r.value) == Some((MimeFor(extname(path)), read(path).value)))
  {
    match ChosenPath(d)
    case None =>
    case Some(path) =>
      if read(path).Some? {
        MimeTypeLacksComma(NormalizeExtension(extname(path)));
        DataUrlRoundTrip(MimeFor(extname(path)), read(path).value);
      }
  }
}

/** The slide-creation handler (`POST /api/slides`): two guards written so that they almost
    never fire, then the upload of the desktop and the mobile banner and the creation of the
    HomeSlide document. Storage and the database write are parameters. */
module SlidesRoute {
  import opened JsValues

  const DesktopPrefix := "slide/desktop/"
  const MobilePrefix := "slide/mobile/"
  /** The prefix the image-type guard compares against. Real MIME types start with "image/". */
  const GuardPrefix := "/image"

  const MsgInvalidType := "Invalid image type"
  const MsgAllFields := "All fields are required"

  datatype HomeSlide = HomeSlide(desktopBannerImage: Url, mobileBannerImage: Url,
                                 links: FormText, section: FormText)

  datatype SlideOutcome =
    | BadRequest(message: string)   // 400
    | ServerError                   // 500, from the catch block
    | Added(home: HomeSlide)        // 201, "Slide added successfully"

  /** The value of a JavaScript condition: a truth value, or an exception. */
  datatype Eval = Value(b: bool) | Throws

  /** `banner?.type.startsWith("/image")` read as a condition. A missing entry short-circuits
      to `undefined` (falsy); a text entry has no `type`, so calling `startsWith` on
      `undefined` throws. */
  function BannerTypeCheck(banner: FormEntry): Eval {
    match banner
    case NoEntry => Value(false)
    case TextEntry(_) => Throws
    case FileEntry(f) => Value(StartsWith(f.mimeType, GuardPrefix))
  }

  /** The first guard, `desktop?.type.startsWith("/image") && mobile?.type.startsWith("/image")`,
      with `&&` short-circuiting: the mobile banner is looked at only when the desktop check
      is true. */
  function ImageTypeGuard(desktop: FormEntry, mobile: FormEntry): (e: Eval)
    ensures e == Value(true) <==>
              && desktop.FileEntry? && mobile.FileEntry?
              && StartsWith(desktop.file.mimeType, GuardPrefix) && StartsWith(mobile.file.mimeType, GuardPrefix)
    ensures e == Throws <==>
              || desktop.TextEntry?
              || (desktop.FileEntry? && StartsWith(desktop.file.mimeType, GuardPrefix) && mobile.TextEntry?)
  {
    match BannerTypeCheck(desktop)
    case Throws => Throws
    case Value(d) => if d then BannerTypeCheck(mobile) else Value(false)
  }

  /** The second guard, `!links && !section`: it fires only when BOTH are falsy. */
  predicate FieldsMissing(links: FormText, section: FormText) {
    !Truthy(links) && !Truthy(section)
  }

  /** `POST /api/slides`: `upload` is object storage and `create(h)` says whether
      `Home.create(h)` succeeds. */
  function CreateSlide(links: FormText, section: FormText, desktop: FormEntry, mobile: FormEntry,
                       upload: Uploader, create: HomeSlide -> bool): (r: SlideOutcome)
    // The image-type guard comes first; it fires only for two files whose types start with "/image".
    ensures r == BadRequest(MsgInvalidType) <==> ImageTypeGuard(desktop, mobile) == Value(true)
    // The field guard comes second; it fires only when links and section are both falsy.
    ensures r == BadRequest(MsgAllFields) <==>
              ImageTypeGuard(desktop, mobile) == Value(false) && FieldsMissing(links, section)
    // A slide is added only for two files, both uploaded, with the write succeeding.
    ensures r.Added? <==>
              && ImageTypeGuard(desktop, mobile) == Value(false) && !FieldsMissing(links, section)
              && desktop.FileEntry? && mobile.FileEntry?
              && upload(DesktopPrefix, desktop.file).Some? && upload(MobilePrefix, mobile.file).Some?
              && create(HomeSlide(upload(DesktopPrefix, desktop.file).value,
                                  upload(MobilePrefix, mobile.file).value, links, section))
    ensures r.Added? ==> r.home == HomeSlide(upload(DesktopPrefix, desktop.file).value,
                                             upload(MobilePrefix, mobile.file).value, links, section)
    // No other outcome is possible.
    ensures r.BadRequest? ==> r.message in {MsgInvalidType, MsgAllFields}
  {
    match ImageTypeGuard(desktop, mobile)
    case Throws => ServerError
    case Value(true) => BadRequest(MsgInvalidType)
    case Value(false) =>
      if FieldsMissing(links, section) then BadRequest(MsgAllFields)
      // `desktopbanner.arrayBuffer()` throws on `null`
      else if !desktop.FileEntry? then ServerError
      else match upload(DesktopPrefix, desktop.file)
        case None => ServerError
        case Some(desktopUrl) =>
          // `mobilebanner.arrayBuffer()` throws on `null` and on a string
          if !mobile.FileEntry? then ServerError
          else match upload(MobilePrefix, mobile.file)
            case None => ServerError
            case Some(mobileUrl) =>
              var home := HomeSlide(desktopUrl, mobileUrl, links, section);
              if create(home) then Added(home) else ServerError
  }

  /** A MIME type that does not start with '/' (every real one, such as "image/png") never
      makes the image-type guard fire. */
  lemma RealMimeTypesPassImageGuard(links: FormText, section: FormText, d: UploadFile, m: UploadFile,
                                    upload: Uploader, create: HomeSlide -> bool)
    requires (|d.mimeType| > 0 && d.mimeType[0] != '/') || (|m.mimeType| > 0 && m.mimeType[0] != '/')
    ensures CreateSlide(links, section, FileEntry(d), FileEntry(m), upload, create) != BadRequest(MsgInvalidType)
  {
    if StartsWith(d.mimeType, GuardPrefix) {
      assert d.mimeType[0] == d.mimeType[..|GuardPrefix|][0];
    }
    if StartsWith(m.mimeType, GuardPrefix) {
      assert m.mimeType[0] == m.mimeType[..|GuardPrefix|][0];
    }
  }

  /** Two real image files with one of links and section present get past both guards. */
  lemma OneFieldSuffices(links: FormText, section: FormText, d: UploadFile, m: UploadFile,
                         upload: Uploader, create: HomeSlide -> bool)
    requires StartsWith(d.mimeType, "image/") && StartsWith(m.mimeType, "image/")
    requires Truthy(links) || Truthy(section)
    ensures !CreateSlide(links, section, FileEntry(d), FileEntry(m), upload, create).BadRequest?
  {
    assert d.mimeType[0] == d.mimeType[..|"image/"|][0];
    RealMimeTypesPassImageGuard(links, section, d, m, upload, create);
  }

  /** A missing desktop banner passes both guards (given links or section) and then fails at
      the buffer conversion. */
  lemma MissingDesktopBannerIsServerError(links: FormText, section: FormText, mobile: FormEntry,
                                          upload: Uploader, create: HomeSlide -> bool)
    requires !FieldsMissing(links, section)
    ensures CreateSlide(links, section, NoEntry, mobile, upload, create) == ServerError
  {
  }

  /** A missing mobile banner passes both guards (given links or section) and then fails at
      its buffer conversion, after the desktop banner has been uploaded. */
  lemma MissingMobileBannerIsServerError(links: FormText, section: FormText, d: UploadFile,
                                         upload: Uploader, create: HomeSlide -> bool)
    requires !FieldsMissing(links, section)
    ensures CreateSlide(links, section, FileEntry(d), NoEntry, upload, create) == ServerError
  {
  }
}

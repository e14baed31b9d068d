/** The add-vocab form: naming a file fetched from an image URL, and the
    gates that stop a submission or a drop before anything is uploaded. */
module AddVocabForm {
  import opened Wrappers
  import opened Text
  import opened Api

  /** A File: its name and its MIME type. */
  datatype FileMeta = FileMeta(name: string, mimeType: string)

  // ---------------------------------------------------------------- the file name

  const OctetStream := "application/octet-stream"

  /** The content-type header, or application/octet-stream when it is absent or empty. */
  function ResponseContentType(header: Option<string>): (ct: string)
    ensures header.Some? && header.value != "" ==> ct == header.value
    ensures header.None? || header.value == "" ==> ct == OctetStream
  {
    if header.Some? && header.value != "" then header.value else OctetStream
  }

  /** A response without a content type never counts as an image. */
  lemma MissingContentTypeIsNoImage(header: Option<string>)
    requires header.None? || header.value == ""
    ensures !HasPrefix(ResponseContentType(header), "image/")
  {
    assert OctetStream[0] != "image/"[0];
  }

  /** The last '/'-separated piece of the URL's path. */
  function LastSegment(pathname: string): (seg: string)
    ensures |seg| <= |pathname| && pathname[|pathname| - |seg|..] == seg
    ensures '/' !in seg
    ensures |seg| < |pathname| ==> pathname[|pathname| - |seg| - 1] == '/'
  {
    var parts := Split(pathname, '/');
    SplitLastPiece(pathname, '/');
    parts[|parts| - 1]
  }

  /** The file base: the last path segment, or "image" when it is empty. */
  function FileBase(pathname: string): (base: string)
    ensures base != "" && '/' !in base
    ensures LastSegment(pathname) != "" ==> base == LastSegment(pathname)
  {
    var seg := LastSegment(pathname);
    if seg != "" then seg else "image"
  }

  /** The extension the content type suggests, in the order png, webp, gif, jpeg or jpg. */
  function ExtFromContentType(ct: string): (ext: string)
    ensures ext in [".png", ".webp", ".gif", ".jpg", ""]
    ensures Contains(ct, "png") ==> ext == ".png"
    ensures !Contains(ct, "png") && Contains(ct, "webp") ==> ext == ".webp"
    ensures !Contains(ct, "png") && !Contains(ct, "webp") && Contains(ct, "gif") ==> ext == ".gif"
    ensures (!Contains(ct, "png") && !Contains(ct, "webp") && !Contains(ct, "gif")
             && (Contains(ct, "jpeg") || Contains(ct, "jpg"))) ==> ext == ".jpg"
    ensures ext == "" <==> !Contains(ct, "png") && !Contains(ct, "webp") && !Contains(ct, "gif")
                           && !Contains(ct, "jpeg") && !Contains(ct, "jpg")
  {
    if Contains(ct, "png") then ".png"
    else if Contains(ct, "webp") then ".webp"
    else if Contains(ct, "gif") then ".gif"
    else if Contains(ct, "jpeg") || Contains(ct, "jpg") then ".jpg"
    else ""
  }

  /** The length of the run of ASCII letters and digits that ends `s`. */
  function TrailingAlnum(s: string): (n: nat)
    ensures n <= |s|
    ensures forall i :: |s| - n <= i < |s| ==> IsAsciiAlnum(s[i])
    ensures n < |s| ==> !IsAsciiAlnum(s[|s| - n - 1])
  {
    if s == [] || !IsAsciiAlnum(s[|s| - 1]) then 0 else TrailingAlnum(s[..|s| - 1]) + 1
  }

  /** `s` ends in '.' and then `k` ASCII letters or digits. */
  ghost predicate ExtensionOfLength(s: string, k: nat)
  {
    k < |s| && s[|s| - k - 1] == '.' && forall i :: |s| - k <= i < |s| ==> IsAsciiAlnum(s[i])
  }

  /** `s` ends in '.' and then 2 to 4 ASCII letters or digits. */
  ghost predicate EndsWithExtension(s: string)
  {
    exists k: nat :: 2 <= k <= 4 && ExtensionOfLength(s, k)
  }

  /** The `hasExt` test, computed from the trailing run of letters and digits. */
  predicate HasExtension(s: string)
    ensures HasExtension(s) ==> |s| >= 3 && s[|s| - 1] != '.'
  {
    var n := TrailingAlnum(s);
    2 <= n <= 4 && n < |s| && s[|s| - n - 1] == '.'
  }

  /** The computed test and the pattern agree on every string. */
  lemma HasExtensionMatchesPattern(s: string)
    ensures HasExtension(s) <==> EndsWithExtension(s)
  {
    var n := TrailingAlnum(s);
    if HasExtension(s) {
      assert ExtensionOfLength(s, n);
    }
    if EndsWithExtension(s) {
      var k: nat :| 2 <= k <= 4 && ExtensionOfLength(s, k);
      ExtensionIsTrailingRun(s, k);
    }
  }

  /** The letters and digits after the final '.' are the whole trailing run. */
  lemma {:induction false} ExtensionIsTrailingRun(s: string, k: nat)
    requires ExtensionOfLength(s, k)
    ensures TrailingAlnum(s) == k
  {
    if k > 0 {
      var s' := s[..|s| - 1];
      assert ExtensionOfLength(s', k - 1);
      ExtensionIsTrailingRun(s', k - 1);
    }
  }

  /** A '.' followed by letters and digits is the trailing run. */
  lemma {:induction false} TrailingAlnumAfterDot(s: string, t: string)
    requires forall i :: 0 <= i < |t| ==> IsAsciiAlnum(t[i])
    ensures TrailingAlnum(s + "." + t) == |t|
  {
    var x := s + "." + t;
    if t != [] {
      var t' := t[..|t| - 1];
      assert x[..|x| - 1] == s + "." + t';
      TrailingAlnumAfterDot(s, t');
    }
  }

  /** The name of the fetched file: the base when it already has an
      extension, otherwise the base plus the content type's extension, or
      ".jpg" when the content type suggests none. */
  function DerivedFileName(pathname: string, ct: string): (name: string)
    ensures HasExtension(FileBase(pathname)) ==> name == FileBase(pathname)
    ensures !HasExtension(FileBase(pathname)) ==>
      name == FileBase(pathname) + (if ExtFromContentType(ct) != "" then ExtFromContentType(ct) else ".jpg")
  {
    var base := FileBase(pathname);
    var ext := ExtFromContentType(ct);
    if HasExtension(base) then base else base + (if ext != "" then ext else ".jpg")
  }

  /** A '.' followed by two to four letters or digits makes an extension. */
  lemma DotRunHasExtension(s: string, t: string)
    requires 2 <= |t| <= 4
    requires forall i :: 0 <= i < |t| ==> IsAsciiAlnum(t[i])
    ensures HasExtension(s + "." + t)
  {
    TrailingAlnumAfterDot(s, t);
    var x := s + "." + t;
    assert x[|x| - |t| - 1] == '.';
  }

  /** Each extension the name can be given is '.' and then three or four letters. */
  lemma SuppliedExtensionShape(e: string)
    requires e in [".png", ".webp", ".gif", ".jpg"]
    ensures e == "." + e[1..] && 3 <= |e[1..]| <= 4
    ensures forall i :: 0 <= i < |e[1..]| ==> IsAsciiAlnum(e[1..][i])
  {
  }

  /** Appending one of those extensions gives a name with an extension. */
  lemma SuppliedExtensionWorks(s: string, e: string)
    requires e in [".png", ".webp", ".gif", ".jpg"]
    ensures HasExtension(s + e)
  {
    SuppliedExtensionShape(e);
    var t := e[1..];
    DotRunHasExtension(s, t);
    assert s + e == s + "." + t by {
      assert e == "." + t;
    }
  }

  /** Whatever the URL and the content type, the file name has an extension. */
  lemma DerivedFileNameHasExtension(pathname: string, ct: string)
    ensures HasExtension(DerivedFileName(pathname, ct))
    ensures EndsWithExtension(DerivedFileName(pathname, ct))
  {
    var base := FileBase(pathname);
    if !HasExtension(base) {
      var ext := ExtFromContentType(ct);
      SuppliedExtensionWorks(base, if ext != "" then ext else ".jpg");
    }
    HasExtensionMatchesPattern(DerivedFileName(pathname, ct));
  }

  // ---------------------------------------------------------------- fetchUrlAsFile

  /** What fetching the image URL gave: a thrown error, or a response with
      its ok flag, status and content-type header. */
  datatype UrlResponse = FetchThrew | Fetched(ok: bool, status: nat, contentType: Option<string>)

  datatype FetchError = NetworkFailed | BadStatus(status: nat) | NotAnImage | InvalidUrl

  /** The message each error shows. */
  function FetchErrorMessage(e: FetchError): (message: string)
    ensures message != ""
  {
    match e
      case NetworkFailed => "Failed to fetch the image URL (network/CORS)"
      case BadStatus(status) => "Image URL responded " + NatToString(status)
      case NotAnImage => "URL does not point to an image"
      case InvalidUrl => "Invalid URL"
  }

  /** fetchUrlAsFile: the checks on the response, then the name and type of
      the file. `pathname` is the path of the parsed URL, None when the URL
      does not parse. */
  function FetchUrlAsFile(res: UrlResponse, pathname: Option<string>): (r: Result<FileMeta, FetchError>)
    ensures res.FetchThrew? ==> r == Failure(NetworkFailed)
    ensures res.Fetched? && !res.ok ==> r == Failure(BadStatus(res.status))
    ensures r.Success? <==>
      && res.Fetched? && res.ok && HasPrefix(ResponseContentType(res.contentType), "image/") && pathname.Some?
    ensures r.Success? ==>
      && r.value.mimeType == ResponseContentType(res.contentType)
      && r.value.name == DerivedFileName(pathname.value, r.value.mimeType)
      && HasPrefix(r.value.mimeType, "image/")
      && HasExtension(r.value.name)
  {
    match res
      case FetchThrew => Failure(NetworkFailed)
      case Fetched(ok, status, header) =>
        if !ok then Failure(BadStatus(status))
        else
          var ct := ResponseContentType(header);
          if !HasPrefix(ct, "image/") then Failure(NotAnImage)
          else if pathname.None? then Failure(InvalidUrl)
          else
            DerivedFileNameHasExtension(pathname.value, ct);
            Success(FileMeta(DerivedFileName(pathname.value, ct), ct))
  }

  // ---------------------------------------------------------------- onSubmit and onDrop

  /** The multipart form onSubmit posts, and where it goes. */
  datatype Submission = Submission(endpoint: string, name: string, translation: string, packId: string, image: FileMeta)

  datatype SubmitStep = Aborted(message: string) | Sent(form: Submission)

  /** onSubmit up to the upload. `respond` and `pathnameOf` stand for the
      network and the URL parser, applied to the trimmed image URL. */
  function Submit(env: Option<string>, packId: string, name: string, translation: string,
                  file: Option<FileMeta>, imageUrl: string,
                  respond: string -> UrlResponse, pathnameOf: string -> Option<string>): (r: SubmitStep)
    ensures JsTrim(translation) == "" ==> r == Aborted("Please enter a translation")
    ensures r.Sent? ==>
      && JsTrim(translation) != ""
      && r.form == Submission(BaseUrl(env) + "/api/vocabs", JsTrim(name), JsTrim(translation), packId, r.form.image)
    ensures JsTrim(translation) != "" && file.Some? ==> r.Sent? && r.form.image == file.value
    ensures JsTrim(translation) != "" && file.None? && JsTrim(imageUrl) == "" ==>
      r == Aborted("Please choose an image or provide a valid image URL")
    ensures JsTrim(translation) != "" && file.None? && JsTrim(imageUrl) != "" ==>
      var fetched := FetchUrlAsFile(respond(JsTrim(imageUrl)), pathnameOf(JsTrim(imageUrl)));
      && (fetched.Success? ==> r.Sent? && r.form.image == fetched.value)
      && (fetched.Failure? ==> r == Aborted(FetchErrorMessage(fetched.error)))
  {
    if JsTrim(translation) == "" then Aborted("Please enter a translation")
    else
      var upload: Result<Option<FileMeta>, string> :=
        if file.Some? then Success(file)
        else if JsTrim(imageUrl) != "" then
          var url := JsTrim(imageUrl);
          match FetchUrlAsFile(respond(url), pathnameOf(url))
            case Success(f) => Success(Some(f))
            case Failure(e) => Failure(FetchErrorMessage(e))
        else Success(None);
      match upload
        case Failure(message) => Aborted(message)
        case Success(None) => Aborted("Please choose an image or provide a valid image URL")
        case Success(Some(f)) =>
          Sent(Submission(BaseUrl(env) + "/api/vocabs", JsTrim(name), JsTrim(translation), packId, f))
  }

  /** Whatever image a submission sends from a URL is an image with an extension. */
  lemma FetchedUploadIsNamedImage(env: Option<string>, packId: string, name: string, translation: string,
                                 imageUrl: string, respond: string -> UrlResponse, pathnameOf: string -> Option<string>)
    requires Submit(env, packId, name, translation, None, imageUrl, respond, pathnameOf).Sent?
    ensures var f := Submit(env, packId, name, translation, None, imageUrl, respond, pathnameOf).form.image;
      HasPrefix(f.mimeType, "image/") && HasExtension(f.name)
  {
  }

  /** The error the form shows after the upload: none on success, else the
      reply's text, or "Upload failed: <status>" when the text is empty. */
  function UploadOutcome(ok: bool, status: nat, text: string): (error: Option<string>)
    ensures ok <==> error.None?
    ensures error.Some? ==> error.value != ""
    ensures error.Some? && text != "" ==> error.value == text
  {
    if ok then None
    else if text != "" then Some(text)
    else Some("Upload failed: " + NatToString(status))
  }

  datatype DropStep = NothingDropped | DropRejected(message: string) | DropAccepted(file: FileMeta)

  /** onDrop: the first dropped file is taken when its type is an image type. */
  function Drop(files: seq<FileMeta>): (r: DropStep)
    ensures files == [] <==> r.NothingDropped?
    ensures r.DropAccepted? <==> files != [] && HasPrefix(files[0].mimeType, "image/")
    ensures r.DropAccepted? ==> r.file == files[0]
    ensures r.DropRejected? ==> r.message == "Only image files are allowed"
  {
    if files == [] then NothingDropped
    else if !HasPrefix(files[0].mimeType, "image/") then DropRejected("Only image files are allowed")
    else DropAccepted(files[0])
  }

  /** A file taken from a drop is what the next submission sends, and it is an
      image, whatever URL is typed. */
  lemma DroppedFileIsSent(files: seq<FileMeta>, env: Option<string>, packId: string, name: string, translation: string,
                          imageUrl: string, respond: string -> UrlResponse, pathnameOf: string -> Option<string>)
    requires Drop(files).DropAccepted? && JsTrim(translation) != ""
    ensures var r := Submit(env, packId, name, translation, Some(Drop(files).file), imageUrl, respond, pathnameOf);
      r.Sent? && r.form.image == files[0] && HasPrefix(r.form.image.mimeType, "image/")
  {
  }
}

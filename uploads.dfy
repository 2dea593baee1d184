/** The `POST /pre-signed-url` route: checks an authenticated caller's upload
    request and hands back a pre-signed PUT URL for a freshly named object in
    the `gallery` bucket. The generated UUID, the ISO text of the current time,
    the account id and the signer are inputs. */
module Uploads {
  import opened Http
  import opened Storage

  /** The parsed request body `{ filename, contentType, fileSize }`. */
  datatype UploadRequest = UploadRequest(filename: Option<string>, contentType: Option<string>, fileSize: Option<int>)

  /** The success payload. */
  datatype UploadTicket = UploadTicket(
    presignedUrl: string,
    filename: string,
    originalFilename: string,
    contentType: string,
    fileSize: int,
    expiresIn: nat)

  /** 10 MiB, in bytes. */
  const MaxFileSize := 10 * 1024 * 1024

  const ImagePrefix := "image/"

  const MissingFields := "Missing required fields: filename, contentType, fileSize"
  const FileTooLarge := "File size exceeds 10MB limit"
  const NotAnImage := "Only image files are allowed"

  /** The fixed content-type to extension table. */
  const MimeToExtension: map<string, string> := map[
    "image/jpeg" := ".jpg",
    "image/jpg" := ".jpg",
    "image/png" := ".png",
    "image/gif" := ".gif",
    "image/webp" := ".webp",
    "image/svg+xml" := ".svg",
    "image/bmp" := ".bmp",
    "image/tiff" := ".tiff"
  ]

  const DefaultExtension := ".jpg"

  /** Every extension a generated object name can end in. */
  const Extensions: set<string> := {".jpg", ".png", ".gif", ".webp", ".svg", ".bmp", ".tiff"}

  /** `isValidImageType`: the content type names an image. */
  predicate IsValidImageType(mimeType: string)
    // Every type the extension table lists passes the check.
    ensures mimeType in MimeToExtension ==> IsValidImageType(mimeType)
  {
    StartsWith(mimeType, ImagePrefix)
  }

  /** The content types accepted are exactly `image/` followed by anything. */
  lemma ImageTypeIsPrefix(mimeType: string, subtype: string)
    ensures IsValidImageType(ImagePrefix + subtype)
    ensures IsValidImageType(mimeType) ==> mimeType == ImagePrefix + mimeType[|ImagePrefix|..]
    ensures !IsValidImageType(mimeType) ==> forall k :: 0 <= k <= |mimeType| ==> mimeType[..k] != ImagePrefix
  {
  }

  /** `getExtensionFromMimeType`: the table's entry, `.jpg` for a type the
      table does not list (every entry is a non-empty string, so the `||`
      fallback picks the default only for a missing entry). */
  function ExtensionFor(mimeType: string): (ext: string)
    ensures ext in Extensions
    ensures mimeType !in MimeToExtension ==> ext == DefaultExtension
    ensures |ext| >= 4 && ext[0] == '.' && '/' !in ext
  {
    if mimeType in MimeToExtension && MimeToExtension[mimeType] != "" then MimeToExtension[mimeType]
    else DefaultExtension
  }

  /** The table as the handler sees it: each listed type gets its own
      extension, and two listed types share one only if both are JPEG. */
  lemma ExtensionTable()
    ensures ExtensionFor("image/jpeg") == ".jpg" && ExtensionFor("image/jpg") == ".jpg"
    ensures ExtensionFor("image/png") == ".png" && ExtensionFor("image/gif") == ".gif"
    ensures ExtensionFor("image/webp") == ".webp" && ExtensionFor("image/svg+xml") == ".svg"
    ensures ExtensionFor("image/bmp") == ".bmp" && ExtensionFor("image/tiff") == ".tiff"
    ensures ExtensionFor("image/x-icon") == DefaultExtension
  {
  }

  /** The three checks, in the handler's order; `None` when the body passes
      all of them, else the message of the first one it fails. */
  function Rejection(body: UploadRequest): (message: Option<string>)
    ensures message.None? <==> Acceptable(body)
    ensures message.Some? ==> message.value in {MissingFields, FileTooLarge, NotAnImage}
  {
    if !TruthyString(body.filename) || !TruthyString(body.contentType) || !TruthyNumber(body.fileSize) then
      Some(MissingFields)
    else if body.fileSize.value > MaxFileSize then
      Some(FileTooLarge)
    else if !IsValidImageType(body.contentType.value) then
      Some(NotAnImage)
    else
      None
  }

  /** The requests the route accepts, stated without regard to order. */
  predicate Acceptable(body: UploadRequest) {
    && body.filename.Some? && body.filename.value != ""
    && body.contentType.Some? && StartsWith(body.contentType.value, ImagePrefix)
    && body.fileSize.Some? && body.fileSize.value != 0 && body.fileSize.value <= MaxFileSize
  }

  /** The headers given to the signer: content type and length, and the
      original name, uploader and upload time as `x-amz-meta-*` metadata. */
  function UploadHeaders(contentType: string, fileSize: int, filename: string, user: UserId, uploadedAt: string)
    : (h: seq<Header>)
    ensures |h| == 5
    ensures forall i, j :: 0 <= i < j < |h| ==> h[i].0 != h[j].0
    // Exactly the last three are metadata headers.
    ensures forall i :: 0 <= i < |h| ==> (StartsWith(h[i].0, "x-amz-meta-") <==> 2 <= i)
  {
    // The first character already tells the two plain headers apart.
    assert "Content-Type"[..11][0] != "x-amz-meta-"[0];
    assert "Content-Length"[..11][0] != "x-amz-meta-"[0];
    [ ("Content-Type", contentType),
      ("Content-Length", DecimalString(fileSize)),
      ("x-amz-meta-original-filename", filename),
      ("x-amz-meta-uploaded-by", user),
      ("x-amz-meta-uploaded-at", uploadedAt) ]
  }

  /** The value of the first header called `name`. */
  function HeaderValue(headers: seq<Header>, name: string): Option<string> {
    if headers == [] then None
    else if headers[0].0 == name then Some(headers[0].1)
    else HeaderValue(headers[1..], name)
  }

  /** Headers before the first one called `name` do not affect its value. */
  lemma {:induction false} HeaderValueSkips(headers: seq<Header>, name: string, k: nat)
    requires k <= |headers|
    requires forall i :: 0 <= i < k ==> headers[i].0 != name
    ensures HeaderValue(headers, name) == HeaderValue(headers[k..], name)
  {
    if k > 0 {
      HeaderValueSkips(headers[1..], name, k - 1);
      assert headers[1..][k - 1..] == headers[k..];
    }
  }

  /** The handler of `POST /pre-signed-url`. */
  function PreSignedUrl(session: Option<UserId>, body: UploadRequest, uuid: string, uploadedAt: string,
                        account: string, signer: UrlSigner): (x: Exchange<UploadTicket>)
    // Without a session the answer is 401, whatever the body holds.
    ensures session.None? ==> x == Exchange(Fail(401, AuthenticationRequired), None)
    // With one, a refused body gets 400 with the first failed check's message.
    ensures session.Some? && !Acceptable(body) ==> x == Exchange(Fail(400, Rejection(body).value), None)
    // Status 200 exactly for an authenticated, acceptable request, and the
    // signer is used on that path only.
    ensures x.response.status == 200 <==> session.Some? && Acceptable(body)
    ensures x.signed.Some? <==> x.response.status == 200
    ensures x.response.status in {200, 400, 401}
    ensures x.response.status == 200 ==>
      var name := uuid + ExtensionFor(body.contentType.value);
      && x.signed == Some(SignRequest(Put, BucketUrl(account, name),
                                       UploadHeaders(body.contentType.value, body.fileSize.value,
                                                     body.filename.value, session.value, uploadedAt)))
      && x.response == Ok(UploadTicket(PresignedUrl(signer, x.signed.value), name, body.filename.value,
                                       body.contentType.value, body.fileSize.value, 3600))
  {
    if session.None? then
      Exchange(Fail(401, AuthenticationRequired), None)
    else if Rejection(body).Some? then
      Exchange(Fail(400, Rejection(body).value), None)
    else
      var contentType := body.contentType.value;
      var uniqueFilename := uuid + ExtensionFor(contentType);
      var request := SignRequest(Put, BucketUrl(account, uniqueFilename),
                                 UploadHeaders(contentType, body.fileSize.value, body.filename.value,
                                               session.value, uploadedAt));
      Exchange(Ok(UploadTicket(PresignedUrl(signer, request), uniqueFilename, body.filename.value, contentType,
                               body.fileSize.value, UrlLifetime)), Some(request))
  }

  /** The fields the handler demands: each present and truthy. */
  predicate FieldsPresent(body: UploadRequest) {
    TruthyString(body.filename) && TruthyString(body.contentType) && TruthyNumber(body.fileSize)
  }

  /** Which check refuses a body that fails several: a missing field wins over
      the size and type checks, and the size check wins over the type check. */
  lemma CheckOrder(body: UploadRequest)
    ensures !FieldsPresent(body) ==> Rejection(body) == Some(MissingFields)
    ensures FieldsPresent(body) && body.fileSize.value > MaxFileSize ==> Rejection(body) == Some(FileTooLarge)
    ensures (FieldsPresent(body) && body.fileSize.value <= MaxFileSize && !IsValidImageType(body.contentType.value))
              ==> Rejection(body) == Some(NotAnImage)
  {
  }

  /** The session check comes before the body is read: two requests without
      a session get the same answer and sign nothing. */
  lemma NoSessionIgnoresBody(a: UploadRequest, b: UploadRequest, uuid: string, uploadedAt: string,
                             account: string, signer: UrlSigner)
    ensures PreSignedUrl(None, a, uuid, uploadedAt, account, signer)
         == PreSignedUrl(None, b, uuid, uploadedAt, account, signer)
  {
  }

  /** The size cap is inclusive: exactly 10 MiB passes, one byte more fails.
      A zero size counts as missing, and a negative size passes every check. */
  lemma SizeBoundary(filename: string, subtype: string, size: int)
    requires filename != ""
    ensures Rejection(UploadRequest(Some(filename), Some(ImagePrefix + subtype), Some(MaxFileSize))).None?
    ensures Rejection(UploadRequest(Some(filename), Some(ImagePrefix + subtype), Some(MaxFileSize + 1)))
         == Some(FileTooLarge)
    ensures Rejection(UploadRequest(Some(filename), Some(ImagePrefix + subtype), Some(0))) == Some(MissingFields)
    ensures size < 0 ==> Rejection(UploadRequest(Some(filename), Some(ImagePrefix + subtype), Some(size))).None?
  {
  }

  /** On success the request given to the signer carries the body's content type, its size
      as decimal text that reads back as the same number, the original file
      name and the caller's identity. */
  lemma SignedHeadersCarryRequest(session: Option<UserId>, body: UploadRequest, uuid: string,
                                  uploadedAt: string, account: string, signer: UrlSigner)
    requires PreSignedUrl(session, body, uuid, uploadedAt, account, signer).response.status == 200
    ensures var h := PreSignedUrl(session, body, uuid, uploadedAt, account, signer).signed.value.headers;
      && HeaderValue(h, "Content-Type") == body.contentType
      && HeaderValue(h, "Content-Length").Some?
      && ParseDecimal(HeaderValue(h, "Content-Length").value) == body.fileSize
      && HeaderValue(h, "x-amz-meta-original-filename") == body.filename
      && HeaderValue(h, "x-amz-meta-uploaded-by") == session
      && HeaderValue(h, "x-amz-meta-uploaded-at") == Some(uploadedAt)
  {
    var h := PreSignedUrl(session, body, uuid, uploadedAt, account, signer).signed.value.headers;
    HeaderValueSkips(h, "x-amz-meta-original-filename", 2);
    HeaderValueSkips(h, "x-amz-meta-uploaded-by", 3);
    HeaderValueSkips(h, "x-amz-meta-uploaded-at", 4);
    DecimalStringRoundTrip(body.fileSize.value);
  }

  /** The object the URL lets the client write is `gallery/<filename>`, where
      `filename` is the name the response reports. */
  lemma SignedObjectIsReportedFile(session: Option<UserId>, body: UploadRequest, uuid: string,
                                   uploadedAt: string, account: string, signer: UrlSigner)
    requires PreSignedUrl(session, body, uuid, uploadedAt, account, signer).response.status == 200
    ensures var x := PreSignedUrl(session, body, uuid, uploadedAt, account, signer);
      && x.signed.value.url == BucketUrlPrefix(account) + x.response.body.payload.filename
      && x.signed.value.url[|BucketUrlPrefix(account)|..] == uuid + ExtensionFor(body.contentType.value)
      && x.signed.value.verb == Put
  {
  }

  /** Two successful calls whose UUIDs differ (UUIDs all have one length)
      name, and sign, two different objects. */
  lemma DistinctUuidsDistinctObjects(uuid1: string, uuid2: string, type1: string, type2: string,
                                     account: string)
    requires |uuid1| == |uuid2| && uuid1 != uuid2
    ensures uuid1 + ExtensionFor(type1) != uuid2 + ExtensionFor(type2)
    ensures BucketUrl(account, uuid1 + ExtensionFor(type1)) != BucketUrl(account, uuid2 + ExtensionFor(type2))
  {
    var a, b := uuid1 + ExtensionFor(type1), uuid2 + ExtensionFor(type2);
    assert a[..|uuid1|] == uuid1;
    assert b[..|uuid2|] == uuid2;
    if BucketUrl(account, a) == BucketUrl(account, b) {
      BucketUrlInjective(account, a, b);
    }
  }
}

# Profile and upload routes of a small serverless HTTP API, in Dafny

This project models the request handling of the API's profile and upload
routes. Each route is a decision: it takes the caller's session, the parsed
JSON body and the user table. From those it produces a JSON response. When the
route hands out an object-store URL, the decision also includes the single
request it gives to the URL signer.

- `Http` (http.dfy) holds what the routes share: optional body fields, where
  `None` covers both an absent key and `null`, JavaScript truthiness, responses
  with status codes, the common error texts, and `startsWith`.
- `Storage` (storage.dfy) is the boundary to the object store. It holds the
  request given to `aws.sign`, and the two opaque library calls (`UrlSigner`):
  signing, and setting `X-Amz-Expires` on the signed URL afterwards. It also
  holds the text of a URL under the `gallery` bucket and the decimal text of a
  number in a request header.
- `Uploads` (uploads.dfy) is `POST /pre-signed-url`. It checks that the caller
  has a session, that the three fields are present, the 10 MiB cap, and the
  `image/` prefix, in that order. It then names the object `<uuid><extension>`
  and signs a PUT to `gallery/<name>`. The response echoes the request.
- `Profile` (profile.dfy) is `GET /profile`, `POST /profile` and
  `GET /profile/image`. The two GETs are functions of the table. The POST is
  the method `UserTable.UpdateProfile` on a class holding the table as a map.
  This method is proved equal to the function `PostProfile`, and the lemmas
  are stated about that function.

Facts about the code that the model keeps:

- `POST /profile` stores `image || null`. So an omitted `image` clears the
  stored image exactly as `null` and `""` do (the comment at profile.ts:93
  speaks only of clearing it by passing `null`).
- There is no `POST /profile/image` route and no stable per-user image key.
  No route hands out a 24-hour upload URL: the 24-hour signing helper in
  src/lib/r2.ts is never called by the routes.
- `updatedAt` is set to the clock reading supplied. Nothing makes it later
  than the previous value.
- `name.length` is counted in UTF-16 code units (`Utf16Length`).
- `!name` already refuses `""`, so the `length < 1` test can never fire.
- `!fileSize` refuses `0`, and a negative size passes every check
  (`Uploads.SizeBoundary`).

Inputs that the code obtains from its environment are parameters:

- the session (`Option<UserId>`);
- the generated UUID;
- the clock reading (as a `Timestamp` for the table, and as its ISO text for
  the upload metadata);
- the storage account id;
- the signer.

## Model

| member | source | states |
|---|---|---|
| `Http.StartsWithIff` | src/routes/uploads.ts:9-11 | `startsWith` holds of `p + s` for every `s`, and a string that starts with `p` is `p` followed by its remainder |
| `Uploads.IsValidImageType` | src/routes/uploads.ts:9-11 | every content type the extension table lists passes the image check |
| `Uploads.ImageTypeIsPrefix` | src/routes/uploads.ts:9-11 | `isValidImageType` accepts `image/` followed by anything and nothing else: a refused type has no prefix equal to `image/` |
| `Uploads.ExtensionFor` | src/routes/uploads.ts:14-26 | the extension is always one of `.jpg .png .gif .webp .svg .bmp .tiff`, is `.jpg` for any type not in the table, and starts with `.` and contains no `/` |
| `Uploads.ExtensionTable` | src/routes/uploads.ts:15-25 | each of the eight listed types gets its own table entry, and an unlisted image type gets `.jpg` |
| `Uploads.Rejection` | src/routes/uploads.ts:44-63 | the three body checks refuse a body exactly when it is not acceptable (all three fields truthy, size at most 10 MiB, type starting with `image/`), and each refusal carries one of the three messages |
| `Uploads.CheckOrder` | src/routes/uploads.ts:44-63 | a missing field is reported before the size and type checks, and an oversized file before a wrong type |
| `Uploads.SizeBoundary` | src/routes/uploads.ts:44-56 | exactly 10485760 bytes passes, 10485761 fails with the size message, 0 counts as a missing field, and a negative size passes |
| `Uploads.PreSignedUrl` | src/routes/uploads.ts:28-110 | no session gives 401 whatever the body holds; a refused body gives 400 with the first failed check's message; 200 exactly for an authenticated, acceptable request; the signer is used on the 200 path only, with a PUT to the bucket URL of `uuid + extension` and five headers (Content-Type, Content-Length and three `x-amz-meta-*` metadata headers); the response carries the signed URL with `X-Amz-Expires` then set to 3600, the generated name, the original filename, the echoed type and size, and `expiresIn` 3600 |
| `Uploads.UploadHeaders` | src/routes/uploads.ts:84-90 | the signer gets five headers with pairwise distinct names, of which exactly the last three are `x-amz-meta-*` metadata headers |
| `Uploads.NoSessionIgnoresBody` | src/routes/uploads.ts:35-41 | without a session, two requests with different bodies get the same answer |
| `Uploads.SignedHeadersCarryRequest` | src/routes/uploads.ts:82-94 | the headers given to the signer carry the content type, a `Content-Length` that reads back as the file size, the original filename, the uploader's id and the upload time |
| `Uploads.SignedObjectIsReportedFile` | src/routes/uploads.ts:66-78 | the signed PUT targets `gallery/` followed by exactly the filename the response reports |
| `Uploads.DistinctUuidsDistinctObjects` | src/routes/uploads.ts:66-78 | equal-length UUIDs that differ give different object names and different signed URLs, whatever the two content types are |
| `Storage.BucketUrlNamesObject` | src/routes/uploads.ts:78 | the text of a bucket URL is the account's fixed prefix followed by the name as given, which can be read back from it |
| `Storage.BucketUrlInjective` | src/routes/profile.ts:166 | two names that give the same URL text in one account are the same string |
| `Storage.PresignedUrl` | src/routes/uploads.ts:97-100 | the URL handed out is the signed URL with `X-Amz-Expires` then set to the decimal text of the 3600-second lifetime |
| `Storage.ExpiresValueIsLifetime` | src/routes/uploads.ts:98-109 | the `X-Amz-Expires` text written into the URL is the decimal text of the `expiresIn` the response reports |
| `Storage.DecimalString` | src/routes/uploads.ts:86 | `toString()` of a size is digits without a leading zero (just `0` for zero), preceded by `-` for a negative size |
| `Storage.DecimalStringRoundTrip` | src/routes/uploads.ts:86 | the decimal text of a size, as put in `Content-Length`, parses back to the same number |
| `Profile.Project` | src/routes/profile.ts:40-48 | the public profile carries the row's id, name, email, image, verification flag, creation and update times |
| `Profile.ProjectionKeepsPublicFields` | src/routes/profile.ts:40-48 | two rows have the same public profile exactly when they agree on all seven public fields, whatever the other columns hold |
| `Profile.GetProfile` | src/routes/profile.ts:18-48 | no session gives 401, no row gives 404, otherwise 200 with the projection of the caller's row |
| `Profile.Utf16Length` | src/routes/profile.ts:82 | the UTF-16 length of a name lies between its character count and twice that |
| `Profile.Utf16LengthOfChar` | src/routes/profile.ts:82 | one character counts one unit, or two when it lies outside the Basic Multilingual Plane |
| `Profile.Utf16LengthAppend` | src/routes/profile.ts:82 | the length of a concatenation is the sum of the two lengths |
| `Profile.Utf16LengthIsCharCountIffBmp` | src/routes/profile.ts:82 | `name.length` equals the number of characters exactly when every character lies in the Basic Multilingual Plane |
| `Profile.Utf16LengthOutsideBmp` | src/routes/profile.ts:82 | a string of characters all outside the Basic Multilingual Plane is twice as long as its character count |
| `Profile.LongOutsideBmpNameRefused` | src/routes/profile.ts:82-86 | a name of 51 characters outside the Basic Multilingual Plane, such as emoji, is refused with "Name must be between 1 and 100 characters" |
| `Profile.NameRejection` | src/routes/profile.ts:75-86 | a name is accepted exactly when it is present, non-empty and at most 100 UTF-16 units long; "Name is required" exactly for an absent or empty name; "Name must be between 1 and 100 characters" exactly for a present, non-empty name over 100 units |
| `Profile.ShortNameBranchUnreachable` | src/routes/profile.ts:82 | a name that passed `!name` is at least one unit long, so the `length < 1` test never fires |
| `Profile.StoredImage` | src/routes/profile.ts:93 | the stored image is the sent image when that is truthy and `null` otherwise |
| `Profile.UpdatedRow` | src/routes/profile.ts:90-95 | an update sets the name, the image (the sent image if truthy, else `null`) and `updatedAt`, and keeps id, email, verification flag, creation time and every other column |
| `Profile.PostProfile` | src/routes/profile.ts:59-117 | 401 without a session, 400 with the name message, 404 without a row, and 200 exactly otherwise; every refusal leaves the table unchanged; no row appears or disappears and no other user's row changes; on 200 the caller's row is the updated row and the reply is `success` with its projection |
| `Profile.ImageFieldLaw` | src/routes/profile.ts:93 | after a successful update, an omitted image and `""` both leave the stored image `null`, and any other string is stored as sent |
| `Profile.PostKeepsKeyedById` | src/routes/profile.ts:90-97 | the update keeps every row stored under its own id |
| `Profile.PostThenGet` | src/routes/profile.ts:103-117 | right after a successful update, `GET /profile` returns exactly the profile the update reported, which holds the written name, image and time and the row's id and email |
| `Profile.ReturnedProfileIsCallers` | src/routes/profile.ts:31-48 | in a table keyed by id, the profile that a read or a successful update returns has the session's user id |
| `Profile.GetProfileImage` | src/routes/profile.ts:128-188 | no session gives 401 and no row 404, each without signing; a falsy image gives "No profile image set" without signing; otherwise one GET of the URL text for `gallery/<image>` is signed, and the reply carries the signed URL with `X-Amz-Expires` then set to 3600, the image as filename and `expiresIn` 3600; the signer is used exactly when the reply has an image |
| `Profile.PostThenGetImage` | src/routes/profile.ts:93 | right after a successful update, `GET /profile/image` offers a URL for the image just written, or reports that there is none when the update cleared it |
| `Profile.UserTable.UpdateProfile` | src/routes/profile.ts:59-117 | the method gives the response and new table of `PostProfile`, keeps rows keyed by id, changes no row but the caller's, changes nothing on a refusal, and on success reports the caller's own id |

## Left out

- Failures of the collaborators are not modelled. These are a body that is not JSON, a failing database query and a throwing signer. Each ends as a 500 "Internal server error" after logging.
- Session lookup is not modelled. The authentication library's result is the `Option<UserId>` input, and its configuration in src/lib/better-auth/options.ts is not part of this model.
- The database driver and SQL are not modelled. The table is a map keyed by the `id` column, and one update or select touches at most the row under the caller's id.
- Request signing is not modelled. AWS Signature Version 4 signing and the `searchParams.set` rewrite are the two opaque functions of `UrlSigner`. The helpers in src/lib/r2.ts, which the routes do not call, are not part of this model.
- Storage.SignRequest: the routes pass no lifetime and no `allHeaders` option to `aws.sign`, so which headers the signature covers is the library's choice, and the model does not say. The lifetime is written into `X-Amz-Expires` only after signing. Whether a signature whose query string covered the library's default expiry still holds after that rewrite is left out, because it depends on the signing library.
- Storage.BucketUrl: it builds URL text. The stored `image` goes into the path unescaped and unnormalised (profile.ts:166), and POST /profile stores any truthy string. A URL parser resolves `../` and ends the path at `?` or `#`, so an image such as `../other/key` can address an object outside `gallery/`, and two different names can address the same object. The model does not resolve URLs, so its facts about the bucket URL are facts about the text only.
- `randomUUID()` and `new Date()` are inputs. UUID uniqueness is not proved; `Uploads.DistinctUuidsDistinctObjects` assumes distinct UUIDs.
- CORS, route mounting, the auth pass-through and the root route in src/index.ts are left out. They are HTTP plumbing.
- Body fields have their intended JSON types: strings for names and types, and integers for `fileSize`. A field of another JSON type (a numeric `name`, a string `fileSize`) is left out. So is a truthy `image` that is not a string, which profile.ts:93 stores as sent. So are fractional sizes, `NaN` and other floating-point values.
- `fileSize` is an unbounded integer. JSON parsing in the source rounds an integer beyond 2^53 to the nearest double, and the handler checks and echoes that rounded value; the model keeps the exact integer.
- Profile.Timestamp: timestamps are integers. `c.json` writes `createdAt` and `updatedAt` as ISO text. That formatting is left out.
- Strings are sequences of Unicode scalar values. A lone UTF-16 surrogate, which a JavaScript string can hold, cannot be represented.
- Uploads.ExtensionFor: it reads the table as a plain map. The JavaScript object lookup would also find inherited properties such as `constructor`, but the handler only calls it with a type that starts with `image/`, and no such name is inherited.
- Storage.DecimalString: it writes every integer in plain decimal. JavaScript writes magnitudes of 10^21 and more in exponent notation, which only a negative `fileSize` could reach.
- The race between concurrent requests of one user is left out, because each handler is one step against the table.

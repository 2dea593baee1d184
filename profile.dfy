/** The profile routes: `GET /profile` and `GET /profile/image` read the
    caller's row of the user table; `POST /profile` overwrites the row's name,
    image and update time. The table is a map from user id to row; the clock
    reading and the signer are inputs. */
module Profile {
  import opened Http
  import opened Storage

  /** A `Date`, as milliseconds since the epoch. */
  type Timestamp = int

  /** A row of the user table. `otherColumns` stands for any further columns
      of the schema, which the routes never return. */
  datatype UserRow = UserRow(
    id: UserId,
    name: string,
    email: string,
    image: Option<string>,
    emailVerified: bool,
    createdAt: Timestamp,
    updatedAt: Timestamp,
    otherColumns: map<string, string>)

  /** The seven fields the routes return for a row. */
  datatype PublicProfile = PublicProfile(
    id: UserId,
    name: string,
    email: string,
    image: Option<string>,
    emailVerified: bool,
    createdAt: Timestamp,
    updatedAt: Timestamp)

  /** The parsed body of `POST /profile`, `{ name, image }`. */
  datatype ProfileUpdate = ProfileUpdate(name: Option<string>, image: Option<string>)

  /** The success payload of `POST /profile`. */
  datatype UpdateReply = UpdateReply(success: bool, user: PublicProfile)

  /** The success payloads of `GET /profile/image`. */
  datatype ImageReply =
    | NoImage(message: string)
    | Download(downloadUrl: string, filename: string, expiresIn: nat)
  {
    /** The `hasImage` field of the reply. */
    predicate HasImage() { Download? }
  }

  const NameRequired := "Name is required"
  const NameLengthInvalid := "Name must be between 1 and 100 characters"
  const NoProfileImage := "No profile image set"
  const MaxNameLength := 100

  /** The representation invariant of the table: the row under key `u` is the
      row whose `id` column is `u`, so `rows[u]` is what `where id = u`
      selects. The handler functions take any map and read `rows[u]` as that
      row; the lemmas that speak of the `id` column require this predicate. */
  ghost predicate KeyedById(rows: map<UserId, UserRow>) {
    forall u :: u in rows ==> rows[u].id == u
  }

  /** The public profile of a row: its seven public fields. */
  function Project(row: UserRow): (p: PublicProfile)
    ensures p.id == row.id && p.name == row.name && p.email == row.email && p.image == row.image
    ensures p.emailVerified == row.emailVerified && p.createdAt == row.createdAt && p.updatedAt == row.updatedAt
  {
    PublicProfile(row.id, row.name, row.email, row.image, row.emailVerified, row.createdAt, row.updatedAt)
  }

  /** The projection keeps the seven public fields and only those: two rows
      project alike exactly when they differ at most in the other columns. */
  lemma ProjectionKeepsPublicFields(a: UserRow, b: UserRow)
    ensures Project(a) == Project(b) <==> a.(otherColumns := b.otherColumns) == b
  {
  }

  /** `name.length`: JavaScript counts UTF-16 code units, two for a character
      outside the Basic Multilingual Plane. */
  function Utf16Length(s: string): (n: nat)
    ensures |s| <= n <= 2 * |s|
  {
    if s == [] then 0 else (if s[0] as int >= 0x1_0000 then 2 else 1) + Utf16Length(s[1..])
  }

  /** One character is one unit, or two when it lies outside the Basic
      Multilingual Plane. */
  lemma Utf16LengthOfChar(c: char)
    ensures Utf16Length([c]) == if c as int >= 0x1_0000 then 2 else 1
  {
  }

  /** The length of a concatenation is the sum of the lengths. */
  lemma {:induction false} Utf16LengthAppend(s: string, t: string)
    ensures Utf16Length(s + t) == Utf16Length(s) + Utf16Length(t)
  {
    if s == [] {
      assert s + t == t;
    } else {
      assert (s + t)[1..] == s[1..] + t;
      Utf16LengthAppend(s[1..], t);
    }
  }

  /** The UTF-16 length equals the character count exactly when every
      character lies in the Basic Multilingual Plane. */
  lemma {:induction false} Utf16LengthIsCharCountIffBmp(s: string)
    ensures Utf16Length(s) == |s| <==> forall i :: 0 <= i < |s| ==> s[i] as int < 0x1_0000
  {
    if s != [] {
      Utf16LengthIsCharCountIffBmp(s[1..]);
      assert forall i :: 1 <= i < |s| ==> s[i] == s[1..][i - 1];
    }
  }

  /** A string made only of characters outside the Basic Multilingual Plane
      is twice as long in UTF-16 units as in characters. */
  lemma {:induction false} Utf16LengthOutsideBmp(s: string)
    requires forall i :: 0 <= i < |s| ==> s[i] as int >= 0x1_0000
    ensures Utf16Length(s) == 2 * |s|
  {
    if s != [] {
      assert forall i :: 1 <= i < |s| ==> s[i] == s[1..][i - 1];
      Utf16LengthOutsideBmp(s[1..]);
    }
  }

  /** The name checks, in the handler's order: `None` for an accepted name,
      else the message of the first check it fails. */
  function NameRejection(name: Option<string>): (message: Option<string>)
    ensures message.None? <==> name.Some? && 1 <= |name.value| && Utf16Length(name.value) <= MaxNameLength
    ensures message == Some(NameRequired) <==> name.None? || name.value == ""
    // `!name` already refuses the empty string, so a name refused for its
    // length is always one that is too long.
    ensures message == Some(NameLengthInvalid) <==>
              name.Some? && name.value != "" && Utf16Length(name.value) > MaxNameLength
  {
    if !TruthyString(name) then Some(NameRequired)
    else if Utf16Length(name.value) < 1 || Utf16Length(name.value) > MaxNameLength then Some(NameLengthInvalid)
    else None
  }

  /** A name of 51 characters, none of them in the Basic Multilingual Plane
      (emoji, say), is 102 units long and refused for its length. */
  lemma LongOutsideBmpNameRefused(name: string)
    requires |name| == 51 && forall i :: 0 <= i < |name| ==> name[i] as int >= 0x1_0000
    ensures NameRejection(Some(name)) == Some(NameLengthInvalid)
  {
    Utf16LengthOutsideBmp(name);
  }

  /** The `name.length < 1` test can never succeed for a name that passed `!name`. */
  lemma ShortNameBranchUnreachable(name: Option<string>)
    requires TruthyString(name)
    ensures Utf16Length(name.value) >= 1
  {
  }

  /** `image || null`: a truthy image is stored, anything else clears it. */
  function StoredImage(image: Option<string>): (stored: Option<string>)
    ensures stored.Some? <==> TruthyString(image)
    ensures stored.Some? ==> stored == image
  {
    if TruthyString(image) then image else None
  }

  /** The row after `set({ name, image: image || null, updatedAt })`. */
  function UpdatedRow(row: UserRow, name: string, image: Option<string>, now: Timestamp): (r: UserRow)
    ensures r.id == row.id && r.email == row.email && r.emailVerified == row.emailVerified
    ensures r.createdAt == row.createdAt && r.otherColumns == row.otherColumns
    ensures r.name == name && r.image == StoredImage(image) && r.updatedAt == now
  {
    row.(name := name, image := StoredImage(image), updatedAt := now)
  }

  /** The handler of `GET /profile`. */
  function GetProfile(session: Option<UserId>, rows: map<UserId, UserRow>): (r: Response<PublicProfile>)
    ensures session.None? ==> r == Fail(401, AuthenticationRequired)
    ensures session.Some? && session.value !in rows ==> r == Fail(404, UserNotFound)
    ensures r.status == 200 <==> session.Some? && session.value in rows
    ensures r.status == 200 ==> r == Ok(Project(rows[session.value]))
  {
    if session.None? then Fail(401, AuthenticationRequired)
    else if session.value !in rows then Fail(404, UserNotFound)
    else Ok(Project(rows[session.value]))
  }

  /** What `POST /profile` answers and what the table is afterwards. */
  function PostProfile(session: Option<UserId>, body: ProfileUpdate, rows: map<UserId, UserRow>, now: Timestamp)
    : (result: (Response<UpdateReply>, map<UserId, UserRow>))
    ensures session.None? ==> result.0 == Fail(401, AuthenticationRequired)
    ensures session.Some? && NameRejection(body.name).Some? ==> result.0 == Fail(400, NameRejection(body.name).value)
    ensures (session.Some? && NameRejection(body.name).None? && session.value !in rows)
              ==> result.0 == Fail(404, UserNotFound)
    ensures result.0.status == 200 <==> session.Some? && NameRejection(body.name).None? && session.value in rows
    // Every refusal leaves the table as it was.
    ensures result.0.status != 200 ==> result.1 == rows
    // Only the caller's row can change, and no row appears or disappears.
    ensures result.1.Keys == rows.Keys
    ensures forall u :: u in rows && session != Some(u) ==> result.1[u] == rows[u]
    ensures result.0.status == 200 ==>
      var u := session.value;
      && result.1[u] == UpdatedRow(rows[u], body.name.value, body.image, now)
      && result.0 == Ok(UpdateReply(true, Project(result.1[u])))
  {
    if session.None? then (Fail(401, AuthenticationRequired), rows)
    else if NameRejection(body.name).Some? then (Fail(400, NameRejection(body.name).value), rows)
    else if session.value !in rows then (Fail(404, UserNotFound), rows)
    else
      var u := session.value;
      var row := UpdatedRow(rows[u], body.name.value, body.image, now);
      (Ok(UpdateReply(true, Project(row))), rows[u := row])
  }

  /** The handler of `GET /profile/image`. */
  function GetProfileImage(session: Option<UserId>, rows: map<UserId, UserRow>, account: string, signer: UrlSigner)
    : (x: Exchange<ImageReply>)
    ensures session.None? ==> x == Exchange(Fail(401, AuthenticationRequired), None)
    ensures session.Some? && session.value !in rows ==> x == Exchange(Fail(404, UserNotFound), None)
    ensures x.response.status == 200 <==> session.Some? && session.value in rows
    // A falsy image gets the "no image" reply without any signing.
    ensures (x.response.status == 200 && !TruthyString(rows[session.value].image))
              ==> x == Exchange(Ok(NoImage(NoProfileImage)), None)
    // Otherwise it signs one GET of the URL text for `gallery/<image>`, and
    // the URL it hands out has `X-Amz-Expires` set to 3600 after signing.
    ensures x.response.status == 200 && TruthyString(rows[session.value].image) ==>
      var image := rows[session.value].image.value;
      && x.signed == Some(SignRequest(Get, BucketUrl(account, image), []))
      && x.response == Ok(Download(PresignedUrl(signer, x.signed.value), image, 3600))
    ensures x.signed.Some? <==> x.response.status == 200 && x.response.body.payload.HasImage()
  {
    if session.None? then Exchange(Fail(401, AuthenticationRequired), None)
    else if session.value !in rows then Exchange(Fail(404, UserNotFound), None)
    else
      var row := rows[session.value];
      if !TruthyString(row.image) then Exchange(Ok(NoImage(NoProfileImage)), None)
      else
        var request := SignRequest(Get, BucketUrl(account, row.image.value), []);
        Exchange(Ok(Download(PresignedUrl(signer, request), row.image.value, UrlLifetime)), Some(request))
  }

  /** The `image` field of a successful update: omitting it or sending `""`
      clears the stored image, and any other string is stored as sent. */
  lemma ImageFieldLaw(session: Option<UserId>, name: string, image: string,
                      rows: map<UserId, UserRow>, now: Timestamp)
    requires PostProfile(session, ProfileUpdate(Some(name), None), rows, now).0.status == 200
    ensures PostProfile(session, ProfileUpdate(Some(name), None), rows, now).1[session.value].image == None
    ensures PostProfile(session, ProfileUpdate(Some(name), Some("")), rows, now).1[session.value].image == None
    ensures image != "" ==>
      PostProfile(session, ProfileUpdate(Some(name), Some(image)), rows, now).1[session.value].image == Some(image)
  {
  }

  /** A successful update keeps the table keyed by id. */
  lemma PostKeepsKeyedById(session: Option<UserId>, body: ProfileUpdate,
                           rows: map<UserId, UserRow>, now: Timestamp)
    requires KeyedById(rows)
    ensures KeyedById(PostProfile(session, body, rows, now).1)
  {
  }

  /** Right after a successful update, `GET /profile` returns exactly the
      profile the update reported, and that profile holds what was written. */
  lemma PostThenGet(session: Option<UserId>, body: ProfileUpdate,
                    rows: map<UserId, UserRow>, now: Timestamp)
    requires PostProfile(session, body, rows, now).0.status == 200
    ensures var (r, after) := PostProfile(session, body, rows, now);
      && GetProfile(session, after) == Ok(r.body.payload.user)
      && r.body.payload.user.name == body.name.value
      && r.body.payload.user.image == StoredImage(body.image)
      && r.body.payload.user.updatedAt == now
      && r.body.payload.user.id == rows[session.value].id
      && r.body.payload.user.email == rows[session.value].email
  {
  }

  /** Right after a successful update, `GET /profile/image` offers the image
      just written, or reports that there is none when it was cleared. */
  lemma PostThenGetImage(session: Option<UserId>, body: ProfileUpdate,
                         rows: map<UserId, UserRow>, now: Timestamp,
                         account: string, signer: UrlSigner)
    requires PostProfile(session, body, rows, now).0.status == 200
    ensures var x := GetProfileImage(session, PostProfile(session, body, rows, now).1, account, signer);
      && (TruthyString(body.image) ==>
            x.response == Ok(Download(PresignedUrl(signer, x.signed.value), body.image.value, 3600))
            && x.signed.value.url == BucketUrl(account, body.image.value))
      && (!TruthyString(body.image) ==> x == Exchange(Ok(NoImage(NoProfileImage)), None))
  {
  }

  /** In a table keyed by id, the profile a read or a successful update
      returns is the caller's own: its `id` is the session's user id. */
  lemma ReturnedProfileIsCallers(session: Option<UserId>, body: ProfileUpdate,
                                 rows: map<UserId, UserRow>, now: Timestamp)
    requires KeyedById(rows)
    ensures GetProfile(session, rows).status == 200 ==> GetProfile(session, rows).body.payload.id == session.value
    ensures PostProfile(session, body, rows, now).0.status == 200 ==>
              PostProfile(session, body, rows, now).0.body.payload.user.id == session.value
  {
  }

  /** The user table, which `POST /profile` updates in place. */
  class UserTable {
    var rows: map<UserId, UserRow>

    ghost predicate Valid()
      reads this
    {
      KeyedById(rows)
    }

    constructor (initial: map<UserId, UserRow>)
      requires KeyedById(initial)
      ensures Valid() && rows == initial
    {
      rows := initial;
    }

    /** The handler of `POST /profile`. */
    method UpdateProfile(session: Option<UserId>, body: ProfileUpdate, now: Timestamp)
      returns (r: Response<UpdateReply>)
      requires Valid()
      modifies this
      ensures Valid()
      ensures (r, rows) == PostProfile(session, body, old(rows), now)
      ensures rows.Keys == old(rows).Keys
      ensures forall u :: u in old(rows) && session != Some(u) ==> rows[u] == old(rows)[u]
      ensures r.status != 200 ==> rows == old(rows)
      ensures r.status == 200 ==> r.body.payload.user.id == session.value
    {
      if session.None? {
        return Fail(401, AuthenticationRequired);
      }
      if !TruthyString(body.name) {
        return Fail(400, NameRequired);
      }
      var name := body.name.value;
      var length := Utf16Length(name);
      if length < 1 || length > MaxNameLength {
        return Fail(400, NameLengthInvalid);
      }
      // `update ... where id = session user ... returning`: no row, no update.
      var u := session.value;
      if u !in rows {
        return Fail(404, UserNotFound);
      }
      var row := rows[u].(name := name, image := StoredImage(body.image), updatedAt := now);
      rows := rows[u := row];
      r := Ok(UpdateReply(true, Project(row)));
      PostKeepsKeyedById(session, body, old(rows), now);
      ReturnedProfileIsCallers(session, body, old(rows), now);
    }
  }
}

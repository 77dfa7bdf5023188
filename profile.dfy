/** src/app/api/profile/route.ts: the signed-in user's own profile row. */
module Profile {
  import opened Strings
  import opened Types

  /** The session's user as the auth client reports it. */
  datatype AuthUser = AuthUser(id: UserId, email: Option<string>)

  /** The PATCH body's two optional keys. `None` is an absent key; for
      `username`, `Some(None)` is a value that is not a string (so `trim`
      throws); for `avatar_url`, `Some(None)` is JSON null. */
  datatype ProfilePatch = ProfilePatch(username: Option<Option<string>>, avatar_url: Option<Option<string>>)

  datatype ProfileReply = ProfileReply(profile: UserProfile, email: Option<string>)

  const TooShort: string := "Username must be at least 2 characters"
  const TooLong: string := "Username must be 30 characters or less"
  const BadCharacters: string := "Username can only contain letters, numbers, hyphens, and underscores"
  const Taken: string := "Username is already taken"
  const NoFields: string := "No fields to update"

  /** One character of `[a-zA-Z0-9_-]`. */
  predicate UsernameChar(c: char) {
    ('a' <= c <= 'z') || ('A' <= c <= 'Z') || ('0' <= c <= '9') || c == '_' || c == '-'
  }

  /** A name the handler stores: 2 to 30 characters, all from the set. */
  predicate WellFormedUsername(s: string) {
    2 <= |s| <= 30 && forall i :: 0 <= i < |s| ==> UsernameChar(s[i])
  }

  /** The anchored test `^[a-zA-Z0-9_-]+$`. */
  function MatchesCharset(s: string): (r: bool)
    ensures r <==> |s| >= 1 && forall i :: 0 <= i < |s| ==> UsernameChar(s[i])
  {
    var n := RunLength(s, UsernameChar);
    n >= 1 && n == |s|
  }

  /** The three checks on an already trimmed name, in order; `None` when
      it passes. */
  function CheckTrimmed(t: string): (r: Option<string>)
    ensures r.None? <==> WellFormedUsername(t)
    ensures r.Some? ==> r == Some(TooShort) || r == Some(TooLong) || r == Some(BadCharacters)
    ensures |t| < 2 ==> r == Some(TooShort)
    ensures |t| > 30 ==> r == Some(TooLong)
  {
    if |t| < 2 then Some(TooShort)
    else if |t| > 30 then Some(TooLong)
    else if !MatchesCharset(t) then Some(BadCharacters)
    else None
  }

  /** The checks on a submitted name, which is trimmed first. */
  function CheckUsername(raw: string): (r: Option<string>)
    ensures r.None? <==> WellFormedUsername(Trim(raw))
    ensures r.Some? ==> r == Some(TooShort) || r == Some(TooLong) || r == Some(BadCharacters)
    ensures |Trim(raw)| < 2 ==> r == Some(TooShort)
    ensures |Trim(raw)| > 30 ==> r == Some(TooLong)
  {
    CheckTrimmed(Trim(raw))
  }

  /** A well-formed name has no surrounding blanks, so it passes as it is. */
  lemma WellFormedIsTrimmed(s: string)
    requires WellFormedUsername(s)
    ensures Trim(s) == s && CheckUsername(s).None?
  {
    assert !IsSpace(s[0]) && !IsSpace(s[|s| - 1]) by {
      assert UsernameChar(s[0]) && UsernameChar(s[|s| - 1]);
    }
    TrimOfTrimmed(s);
  }

  /** The profile rows, keyed by user id. */
  predicate KeyedById(rows: map<UserId, UserProfile>) {
    forall k :: k in rows ==> rows[k].id == k
  }

  predicate UsernamesUnique(rows: map<UserId, UserProfile>) {
    forall a, b :: a in rows && b in rows && a != b ==> rows[a].username != rows[b].username
  }

  /** `.eq('username', name).neq('id', id)` finds a row. */
  predicate NameTaken(rows: map<UserId, UserProfile>, name: string, id: UserId) {
    exists k :: k in rows && k != id && rows[k].username == name
  }

  /** The row after `update(updates)`: each present key replaces its field. */
  function Applied(p: UserProfile, username: Option<string>, avatar: Option<Option<string>>): (r: UserProfile)
    ensures r.id == p.id && r.karma == p.karma && r.created_at == p.created_at
    ensures r.username == (if username.Some? then username.value else p.username)
    ensures r.avatar_url == (if avatar.Some? then avatar.value else p.avatar_url)
  {
    var named := if username.Some? then p.(username := username.value) else p;
    if avatar.Some? then named.(avatar_url := avatar.value) else named
  }

  /** Re-submitting one's own name never collides: only other rows count. */
  lemma OwnNameIsFree(rows: map<UserId, UserProfile>, id: UserId)
    requires UsernamesUnique(rows) && id in rows
    ensures !NameTaken(rows, rows[id].username, id)
  {
  }

  class ProfileTable {
    var rows: map<UserId, UserProfile>

    ghost predicate Valid()
      reads this
    {
      KeyedById(rows) && UsernamesUnique(rows)
    }

    constructor(initial: map<UserId, UserProfile>)
      requires KeyedById(initial) && UsernamesUnique(initial)
      ensures Valid() && rows == initial
    {
      rows := initial;
    }

    predicate Taken(name: string, id: UserId)
      reads this
    {
      NameTaken(rows, name, id)
    }

    /** `update(updates).eq('id', id)` on an existing row with a name no
        other row holds. */
    method Update(id: UserId, username: Option<string>, avatar: Option<Option<string>>)
      requires Valid() && id in rows
      requires username.Some? ==> !Taken(username.value, id)
      modifies this
      ensures Valid()
      ensures rows == old(rows)[id := Applied(old(rows)[id], username, avatar)]
    {
      rows := rows[id := Applied(rows[id], username, avatar)];
    }
  }

  /** `GET`: the caller's row and the e-mail address of the session.
      `readError` is the storage layer's failure, if any; `noRowError` the
      message it gives when no row matches. */
  function GetProfile(user: Option<AuthUser>, readError: Option<string>, noRowError: string, profiles: ProfileTable)
    : (response: Response<ProfileReply>)
    reads profiles
    ensures user.None? ==> response == Fail(401, "Unauthorized")
    ensures response.Ok? <==> user.Some? && readError.None? && user.value.id in profiles.rows
    ensures response.Ok? ==> response.body == ProfileReply(profiles.rows[user.value.id], user.value.email)
    ensures response.Fail? && user.Some? ==> response.status == 500
  {
    if user.None? then Fail(401, "Unauthorized")
    else if readError.Some? then Fail(500, readError.value)
    else if user.value.id !in profiles.rows then Fail(500, noRowError)
    else Ok(ProfileReply(profiles.rows[user.value.id], user.value.email))
  }

  /** The name the patch asks for once it has passed the checks. */
  predicate UsernameAccepted(patch: ProfilePatch, rows: map<UserId, UserProfile>, id: UserId) {
    patch.username.None?
    || (patch.username.value.Some?
        && CheckUsername(patch.username.value.value).None?
        && !NameTaken(rows, Trim(patch.username.value.value), id))
  }

  function NewName(patch: ProfilePatch): Option<string> {
    if patch.username.Some? && patch.username.value.Some? then Some(Trim(patch.username.value.value)) else None
  }

  /** `PATCH`: change the username, the avatar or both. `body` is `None`
      when the request body is not JSON; `thrown` is the message of the
      exception the handler catches then, or when `trim` is called on a
      value that is not a string. */
  method PatchProfile(user: Option<AuthUser>, body: Option<ProfilePatch>, thrown: string,
                      updateError: Option<string>, noRowError: string, profiles: ProfileTable)
    returns (response: Response<UserProfile>)
    requires profiles.Valid()
    modifies profiles
    ensures profiles.Valid()
    ensures !response.Ok? ==> unchanged(profiles)
    ensures user.None? ==> response == Fail(401, "Unauthorized")
    ensures user.Some? && body.None? ==> response == Fail(500, thrown)
    ensures user.Some? && body.Some? && body.value.username == Some(None) ==> response == Fail(500, thrown)
    ensures user.Some? && body.Some? && body.value.username.Some? && body.value.username.value.Some?
            && CheckUsername(body.value.username.value.value).Some? ==>
      response == Fail(400, CheckUsername(body.value.username.value.value).value)
    ensures user.Some? && body.Some? && body.value.username.Some? && body.value.username.value.Some?
            && CheckUsername(body.value.username.value.value).None?
            && NameTaken(old(profiles.rows), Trim(body.value.username.value.value), user.value.id) ==>
      response == Fail(409, Taken)
    ensures user.Some? && body.Some? && body.value.username.None? && body.value.avatar_url.None? ==>
      response == Fail(400, NoFields)
    ensures response.Ok? <==>
      && user.Some? && body.Some?
      && (body.value.username.Some? || body.value.avatar_url.Some?)
      && UsernameAccepted(body.value, old(profiles.rows), user.value.id)
      && updateError.None? && user.value.id in old(profiles.rows)
    ensures response.Ok? ==>
      && profiles.rows == old(profiles.rows)[user.value.id :=
           Applied(old(profiles.rows)[user.value.id], NewName(body.value), body.value.avatar_url)]
      && response.body == profiles.rows[user.value.id]
  {
    if user.None? {
      return Fail(401, "Unauthorized");
    }
    if body.None? {
      return Fail(500, thrown);
    }
    var id := user.value.id;
    var patch := body.value;
    var username: Option<string> := None;
    if patch.username.Some? {
      if patch.username.value.None? {
        return Fail(500, thrown);
      }
      var raw := patch.username.value.value;
      var verdict := CheckUsername(raw);
      if verdict.Some? {
        return Fail(400, verdict.value);
      }
      var trimmed := Trim(raw);
      if profiles.Taken(trimmed, id) {
        return Fail(409, Taken);
      }
      username := Some(trimmed);
    }
    if username.None? && patch.avatar_url.None? {
      return Fail(400, NoFields);
    }
    if updateError.Some? {
      return Fail(500, updateError.value);
    }
    if id !in profiles.rows {
      return Fail(500, noRowError);
    }
    profiles.Update(id, username, patch.avatar_url);
    response := Ok(profiles.rows[id]);
  }

  /** Replacing one row by a profile whose name no other row holds keeps
      names unique. */
  lemma ReplaceKeepsUnique(rows: map<UserId, UserProfile>, id: UserId, p: UserProfile)
    requires UsernamesUnique(rows)
    requires forall k :: k in rows && k != id ==> rows[k].username != p.username
    ensures UsernamesUnique(rows[id := p])
  {
    var after := rows[id := p];
    forall a, b | a in after && b in after && a != b
      ensures after[a].username != after[b].username
    {
      if a == id {
        assert after[b] == rows[b];
      } else if b == id {
        assert after[a] == rows[a];
      } else {
        assert after[a] == rows[a] && after[b] == rows[b];
      }
    }
  }

  /** A successful rename leaves the caller's row holding a well-formed
      name that no other row holds. */
  lemma RenamedRowIsUnique(rows: map<UserId, UserProfile>, id: UserId, name: string, avatar: Option<Option<string>>)
    requires UsernamesUnique(rows) && id in rows
    requires CheckUsername(name).None? && !NameTaken(rows, Trim(name), id)
    ensures var after := rows[id := Applied(rows[id], Some(Trim(name)), avatar)];
      UsernamesUnique(after) && WellFormedUsername(after[id].username)
      && forall k :: k in after && k != id ==> after[k].username != after[id].username
  {
    var p := Applied(rows[id], Some(Trim(name)), avatar);
    assert p.username == Trim(name);
    forall k | k in rows && k != id
      ensures rows[k].username != p.username
    {
      assert rows[k].username != Trim(name);
    }
    ReplaceKeepsUnique(rows, id, p);
  }
}

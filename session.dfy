/** UserManager: the single stored user profile under the `currentUser`
    storage key. Its presence is what "logged in" means. */
module Session {
  import opened Wrappers

  /** A JSON value as the profile holds it. */
  datatype Value = Str(s: string) | Num(n: int) | Null | Obj(fields: map<string, Value>)

  /** A profile record: field name to value. */
  type Profile = map<string, Value>

  /** Domain suffix of the synthesised e-mail address. */
  const EmailDomain: string := "@example.com"

  /** The placeholder reading statistics every new profile starts with. */
  const SeedStats: Value := Obj(map[
    "booksRead" := Num(12),
    "currentBooks" := Num(3),
    "readingHours" := Num(45),
    "favoriteCategory" := Str("البرمجة")])

  /** The fields a freshly built profile has. */
  const ProfileFields: set<string> :=
    {"username", "name", "email", "phone", "birthDate", "bio", "interests", "avatar", "joinDate", "stats"}

  /** The record login builds for `username`; `joinDate` is the clock's reading. */
  function FreshProfile(username: string, joinDate: string): (p: Profile)
    ensures p.Keys == ProfileFields
    ensures p["username"] == p["name"] == Str(username)
    ensures p["email"] == Str(username + EmailDomain)
    ensures forall k :: k in {"phone", "birthDate", "bio", "interests"} ==> p[k] == Str("")
    ensures p["avatar"] == Null && p["joinDate"] == Str(joinDate) && p["stats"] == SeedStats
  {
    map[
      "username" := Str(username),
      "name" := Str(username),
      "email" := Str(username + EmailDomain),
      "phone" := Str(""),
      "birthDate" := Str(""),
      "bio" := Str(""),
      "interests" := Str(""),
      "avatar" := Null,
      "joinDate" := Str(joinDate),
      "stats" := SeedStats]
  }

  /** Different user names give different profiles. */
  lemma FreshProfileInjective(u1: string, u2: string, joinDate: string)
    requires FreshProfile(u1, joinDate) == FreshProfile(u2, joinDate)
    ensures u1 == u2
  {
    assert FreshProfile(u1, joinDate)["username"] == Str(u1);
  }

  /** Shallow merge `{...current, ...partial}`: keys of `partial` win, every
      other key of `current` stays. */
  function Merge(current: Profile, partial: Profile): (r: Profile)
    ensures r.Keys == current.Keys + partial.Keys
    ensures forall k :: k in partial ==> r[k] == partial[k]
    ensures forall k :: k in current && k !in partial ==> r[k] == current[k]
  {
    current + partial
  }

  /** Applying the same update twice is applying it once. */
  lemma MergeIdempotent(current: Profile, partial: Profile)
    ensures Merge(Merge(current, partial), partial) == Merge(current, partial)
  {
  }

  /** Two updates in a row are one update with the later values winning. */
  lemma MergeSequential(current: Profile, first: Profile, second: Profile)
    ensures Merge(Merge(current, first), second) == Merge(current, Merge(first, second))
  {
  }

  /** An empty update changes nothing. */
  lemma MergeEmpty(current: Profile)
    ensures Merge(current, map[]) == current
  {
  }

  /** The session store; `currentUser` is the storage slot (None when removed). */
  class UserManager {
    var currentUser: Option<Profile>

    /** Starts from whatever an earlier page left in storage. */
    constructor (persisted: Option<Profile>)
      ensures currentUser == persisted
    {
      currentUser := persisted;
    }

    method GetCurrentUser() returns (user: Option<Profile>)
      ensures user == currentUser
    {
      user := currentUser;
    }

    /** Overwrites the slot, whatever it held. */
    method SaveUser(userData: Profile)
      modifies this
      ensures currentUser == Some(userData)
    {
      currentUser := Some(userData);
    }

    /** Builds a fresh profile for `username` (the password is never looked
        at), stores it over any previous one and returns it. */
    method Login(username: string, password: string, joinDate: string) returns (userData: Profile)
      modifies this
      ensures userData == FreshProfile(username, joinDate)
      ensures currentUser == Some(userData)
    {
      userData := FreshProfile(username, joinDate);
      SaveUser(userData);
    }

    /** Removes the slot. */
    method Logout()
      modifies this
      ensures currentUser == None
    {
      currentUser := None;
    }

    method IsLoggedIn() returns (loggedIn: bool)
      ensures loggedIn <==> currentUser.Some?
    {
      var user := GetCurrentUser();
      loggedIn := user.Some?;
    }

    /** Merges `profileData` onto the stored profile and stores the result;
        without a session, returns None and leaves storage alone. */
    method UpdateProfile(profileData: Profile) returns (updated: Option<Profile>)
      modifies this
      ensures old(currentUser).None? ==> updated == None && currentUser == None
      ensures old(currentUser).Some? ==>
        && updated == Some(Merge(old(currentUser).value, profileData))
        && currentUser == updated
    {
      var user := GetCurrentUser();
      match user {
        case None =>
          updated := None;
        case Some(current) =>
          var merged := Merge(current, profileData);
          SaveUser(merged);
          updated := Some(merged);
      }
    }
  }

  /** Logged out, log in as "ali", log out again. */
  method SessionWalkthrough()
  {
    var users := new UserManager(None);
    var loggedIn := users.IsLoggedIn();
    assert !loggedIn;
    var nothing := users.UpdateProfile(map["bio" := Str("x")]);
    assert nothing == None && users.currentUser == None;
    var profile := users.Login("ali", "x", "2024-12-01T00:00:00.000Z");
    assert profile["username"] == Str("ali") && profile["email"] == Str("ali@example.com");
    loggedIn := users.IsLoggedIn();
    assert loggedIn;
    var current := users.GetCurrentUser();
    assert current == Some(profile);
    var updated := users.UpdateProfile(map["bio" := Str("reader")]);
    assert updated.Some? && updated.value["bio"] == Str("reader") && updated.value["email"] == Str("ali@example.com");
    users.Logout();
    loggedIn := users.IsLoggedIn();
    assert !loggedIn;
  }
}

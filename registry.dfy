/**
 * The browser client's user registry: the `users` dictionary kept in local
 * storage (username to `{username, team}`) and the signed-in user, with
 * signup, login, logout, saving a team and syncing its scores.
 */
module Registry {
  import opened Common
  import opened Text
  import opened Records
  import opened Teams

  /** A stored user: `{username, team}`, the team `null` until one is saved. */
  datatype UserRecord = UserRecord(username: string, team: Option<Team>)

  datatype SignupError = TooShort | InvalidCharacters | UsernameTaken

  datatype SignupResult = Registered | Rejected(error: SignupError)

  datatype SubmitResult = Saved | NotLoggedIn | AlreadySubmitted

  /** `/^[a-zA-Z0-9_]+$/`. */
  predicate WordName(username: string)
  {
    username != [] && forall i :: 0 <= i < |username| ==> IsWordChar(username[i])
  }

  /**
   * What `signup` answers for `username`, the checks made in their order:
   * the length first, then the characters, then whether the name is taken.
   */
  function SignupCheck(users: map<string, UserRecord>, username: string): (r: SignupResult)
    ensures r == Rejected(TooShort) <==> Utf16Length(username) < 3
    ensures r == Rejected(InvalidCharacters) <==> Utf16Length(username) >= 3 && !WordName(username)
    ensures r == Rejected(UsernameTaken) <==> Utf16Length(username) >= 3 && WordName(username) && username in users
    ensures r == Registered <==> Utf16Length(username) >= 3 && WordName(username) && username !in users
  {
    if Utf16Length(username) < 3 then Rejected(TooShort)
    else if !WordName(username) then Rejected(InvalidCharacters)
    else if username in users then Rejected(UsernameTaken)
    else Registered
  }

  /**
   * `length` counts UTF-16 code units: an emoji and a letter make three, so
   * the name passes the length test and fails on its characters.
   */
  lemma EmojiNameLength()
    ensures SignupCheck(map[], "\U{1F600}a") == Rejected(InvalidCharacters)
  {
    assert Utf16Length("\U{1F600}a") == 2 + Utf16Length("a");
  }

  class Users {
    /** The `users` dictionary of local storage. */
    var users: map<string, UserRecord>
    /** `currentUser`, `null` when nobody is signed in. */
    var currentUser: Option<string>

    /** Every record is stored under its own username, and the signed-in user is registered. */
    ghost predicate Valid()
      reads this
    {
      && (forall u :: u in users ==> users[u].username == u)
      && (currentUser.Some? ==> currentUser.value in users)
    }

    /** Empty storage: no users and nobody signed in. */
    constructor()
      ensures Valid() && users == map[] && currentUser == None
    {
      users := map[];
      currentUser := None;
    }

    /** `getUserTeam`: the user's saved team, `null` for an unknown user or one without a team. */
    function UserTeam(username: string): (r: Option<Team>)
      reads this
      ensures r.Some? ==> username in users && users[username].team == r
      ensures username in users ==> r == users[username].team
    {
      if username in users then users[username].team else None
    }

    /** `hasUserSubmittedTeam`: the user has a saved team with at least one pick. */
    predicate HasSubmittedTeam(username: string)
      reads this
    {
      match UserTeam(username)
      case Some(team) => |team| > 0
      case None => false
    }

    /** `login`: succeeds exactly for a registered name, which becomes the signed-in user. */
    method Login(username: string) returns (ok: bool)
      requires Valid()
      modifies this
      ensures Valid()
      ensures ok <==> username in users
      ensures users == old(users)
      ensures currentUser == if ok then Some(username) else old(currentUser)
    {
      ok := username in users;
      if ok {
        currentUser := Some(username);
      }
    }

    /**
     * `signup`: on success the name is stored with no team and signed in;
     * a rejected name leaves everything as it was.
     */
    method Signup(username: string) returns (r: SignupResult)
      requires Valid()
      modifies this
      ensures Valid()
      ensures r == SignupCheck(old(users), username)
      ensures r == Registered ==> users == old(users)[username := UserRecord(username, None)] && currentUser == Some(username)
      ensures r == Registered ==> !HasSubmittedTeam(username)
      ensures r != Registered ==> users == old(users) && currentUser == old(currentUser)
    {
      if Utf16Length(username) < 3 {
        return Rejected(TooShort);
      }
      if !WordName(username) {
        return Rejected(InvalidCharacters);
      }
      if username in users {
        return Rejected(UsernameTaken);
      }
      users := users[username := UserRecord(username, None)];
      currentUser := Some(username);
      r := Registered;
    }

    /** `logout`: nobody is signed in any more; the stored users stay. */
    method Logout()
      requires Valid()
      modifies this
      ensures Valid() && currentUser == None && users == old(users)
    {
      currentUser := None;
    }

    /**
     * `saveUserTeam`: the user's record, created if missing, holds the team;
     * every other user keeps their record.
     */
    method SaveUserTeam(username: string, team: Team)
      requires Valid()
      modifies this
      ensures Valid()
      ensures users == old(users)[username := UserRecord(username, Some(team))]
      ensures currentUser == old(currentUser)
      ensures UserTeam(username) == Some(team)
      ensures HasSubmittedTeam(username) <==> |team| > 0
      ensures forall other :: other != username ==> UserTeam(other) == old(UserTeam(other))
    {
      var record := if username in users then users[username] else UserRecord("", None);
      record := record.(team := Some(team));
      record := record.(username := username);
      users := users[username := record];
    }

    /**
     * The submit button: refused when nobody is signed in or when the user
     * already has a team, so a submitted team is never replaced.
     */
    method SubmitTeam(team: Team) returns (r: SubmitResult)
      requires Valid()
      modifies this
      ensures Valid() && currentUser == old(currentUser)
      ensures r == Saved <==> old(currentUser).Some? && !old(HasSubmittedTeam(currentUser.value))
      ensures r == Saved ==> users == old(users)[currentUser.value := UserRecord(currentUser.value, Some(team))]
      ensures r != Saved ==> users == old(users)
      ensures forall u :: old(HasSubmittedTeam(u)) ==> UserTeam(u) == old(UserTeam(u))
    {
      if currentUser.None? {
        return NotLoggedIn;
      }
      if HasSubmittedTeam(currentUser.value) {
        return AlreadySubmitted;
      }
      SaveUserTeam(currentUser.value, team);
      r := Saved;
    }

    /**
     * The score sync for the signed-in user: nothing happens without a
     * signed-in user, a saved team or a loaded leaderboard; otherwise the
     * saved team is replaced by its synced copy, which differs from it in
     * scores only.
     */
    method SyncTeamScores(leaderboard: Option<seq<Player>>) returns (synced: bool)
      requires Valid()
      modifies this
      ensures Valid() && currentUser == old(currentUser)
      ensures synced <==> currentUser.Some? && old(UserTeam(currentUser.value)).Some? && leaderboard.Some?
      ensures synced ==> UserTeam(currentUser.value) == Some(SyncAll(old(UserTeam(currentUser.value)).value, leaderboard.value))
      ensures synced ==> users == old(users)[currentUser.value := UserRecord(currentUser.value, Some(SyncAll(old(UserTeam(currentUser.value)).value, leaderboard.value)))]
      ensures !synced ==> users == old(users)
    {
      if currentUser.None? {
        return false;
      }
      var username := currentUser.value;
      var team := UserTeam(username);
      if team.None? || leaderboard.None? {
        return false;
      }
      var updated := SyncScores(team.value, leaderboard.value);
      SaveUserTeam(username, updated);
      synced := true;
    }

    /**
     * `renderScoreboard` for the signed-in user's saved team: each member
     * takes the leaderboard's score when the leaderboard is loaded and lists
     * it with one, the updated team is saved, and the total of the members'
     * score values is shown. Nothing happens without a signed-in user or a
     * saved team.
     */
    method RenderScoreboard(leaderboard: Option<seq<Player>>) returns (total: Option<int>)
      requires Valid()
      modifies this
      ensures Valid() && currentUser == old(currentUser)
      ensures total.Some? <==> currentUser.Some? && old(UserTeam(currentUser.value)).Some?
      ensures total.Some? ==>
        var team := old(UserTeam(currentUser.value)).value;
        var shown := if leaderboard.Some? then SyncAll(team, leaderboard.value) else team;
        users == old(users)[currentUser.value := UserRecord(currentUser.value, Some(shown))]
        && UserTeam(currentUser.value) == Some(shown) && total.value == TeamTotal(shown)
      ensures total.None? ==> users == old(users)
    {
      if currentUser.None? {
        return None;
      }
      var username := currentUser.value;
      var team := UserTeam(username);
      if team.None? {
        return None;
      }
      var updated, totalScore := RenderScores(team.value, leaderboard);
      SaveUserTeam(username, updated);
      total := Some(totalScore);
    }
  }
}

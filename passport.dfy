/**
 * config/passport.js: the verify callback of the GitHub strategy, which resolves a GitHub
 * profile to a user: by GitHub id, else by linking the local account with the profile's
 * email, else by creating a new account.
 */
module GithubStrategy {
  import opened Wrappers
  import opened JsText
  import opened Faults
  import opened UserModel

  /** The profile passport-github2 passes to the callback; `emails` holds the `value` of each
      entry of `profile.emails` (an absent list is an empty one). */
  datatype Profile = Profile(id: string, username: Option<string>, emails: seq<string>)

  /** The email the callback works with: the first one, lower-cased, if there is any. */
  function ProfileEmail(p: Profile): (r: Option<string>)
    ensures r.None? <==> p.emails == []
    ensures r.Some? ==> r.value == ToLowerCase(p.emails[0])
  {
    if |p.emails| > 0 then Some(ToLowerCase(p.emails[0])) else None
  }

  /** Only the first email of the profile matters. */
  lemma ProfileEmailIgnoresLaterEmails(p: Profile, rest: seq<string>)
    requires p.emails != []
    ensures ProfileEmail(p.(emails := [p.emails[0]] + rest)) == ProfileEmail(p)
  {
  }

  /** `profile.username || \`gh_${profile.id}\``. */
  function FallbackUsername(p: Profile): (r: string)
    ensures Truthy(p.username) ==> r == p.username.value
    ensures !Truthy(p.username) ==> r == "gh_" + p.id
  {
    if Truthy(p.username) then p.username.value else "gh_" + p.id
  }

  /** The document `User.create({ githubId, username, email })` builds: no password. */
  function GithubDraft(p: Profile): Draft {
    NewDraft(FallbackUsername(p), ProfileEmail(p), None, Some(p.id))
  }

  /** The user that creation stores for a profile at time `now`. */
  function GithubUser(p: Profile, now: int): (u: User)
    ensures u.githubId == Some(p.id) && u.password.None?
    ensures u.username == CastUsername(FallbackUsername(p)) && u.email == CastOptionalEmail(ProfileEmail(p))
  {
    var d := GithubDraft(p);
    User(d.username, d.email, None, d.githubId, now, now)
  }

  /** The callback reaches the linking step: no account has the GitHub id, and the profile
      carries a (truthy) email that a stored account holds. */
  predicate LinksByEmail(t: Users, p: Profile)
    requires UsersValid(t)
  {
    && FindByGithubId(t, p.id).None?
    && Truthy(ProfileEmail(p))
    && FindByEmail(t, ProfileEmail(p).value).Some?
  }

  /** The verify callback, `async (accessToken, refreshToken, profile, done)`. A result `Ok(a)`
      is `done(null, a)`, `Err(e)` is `done(e)`; `users'` is the collection afterwards. */
  method Resolve(users: Users, profile: Profile, h: Hasher, salt: nat, now: int)
      returns (result: Result<Account, Fault>, users': Users)
    requires UsersValid(users)
    ensures UsersValid(users')
    ensures result.Err? ==> users' == users
    // every success yields a stored account that now carries the profile's GitHub id
    ensures result.Ok? ==>
      && result.value.id in users'.records
      && result.value == Selected(result.value.id, users'.records[result.value.id])
      && result.value.githubId == Some(profile.id)
    // 1. found by GitHub id: that account, and nothing is written
    ensures FindByGithubId(users, profile.id).Some? ==>
      var k := FindByGithubId(users, profile.id).value;
      result == Ok(Selected(k, users.records[k])) && users' == users
    // 2. linked by email: that account gets the GitHub id, nothing else is written
    ensures LinksByEmail(users, profile) ==>
      var k := FindByEmail(users, ProfileEmail(profile).value).value;
      && users' == Users(users.records[k := Linked(users.records[k], profile.id, now)], users.next)
      && result.Ok? && result.value.id == k
    // 3. otherwise exactly one account is created, unless validation or a unique index refuses it
    ensures FindByGithubId(users, profile.id).None? && !LinksByEmail(users, profile) ==>
      && (result.Ok? <==> Validates(GithubDraft(profile), true) && !Collides(users, GithubUser(profile, now), None))
      && (result.Ok? ==>
            && users' == Users(users.records[users.next := GithubUser(profile, now)], users.next + 1)
            && result.value.id == users.next)
  {
    // `user` is the account found so far; each step runs only while it is still None
    var user: Option<Account> := None;
    var byGithubId := FindByGithubId(users, profile.id);
    if byGithubId.Some? {
      user := Some(Selected(byGithubId.value, users.records[byGithubId.value]));
    }
    var email := ProfileEmail(profile);
    users' := users;

    if user.None? && Truthy(email) {
      var byEmail := FindByEmail(users, email.value);
      if byEmail.Some? {
        var linked;
        linked, users' := LinkAccount(users, byEmail.value, profile.id, h, salt, now);
        user := Some(linked);
      }
    }

    if user.None? {
      var created;
      created, users' := CreateAccount(users, profile, h, salt, now);
      if created.Err? {
        return Err(created.error), users;
      }
      user := Some(created.value);
    }

    result := Ok(user.value);
  }

  /** `user.githubId = profile.id; await user.save()` on the account found by email. The save
      cannot fail: the stored account is valid and no account holds the GitHub id yet. */
  method LinkAccount(users: Users, k: UserId, githubId: string, h: Hasher, salt: nat, now: int)
      returns (account: Account, users': Users)
    requires UsersValid(users) && k in users.records
    requires FindByGithubId(users, githubId).None?
    ensures users' == Users(users.records[k := Linked(users.records[k], githubId, now)], users.next)
    ensures UsersValid(users')
    ensures account == Selected(k, users'.records[k])
  {
    var user := new UserDocument.Load(k, users.records[k]);
    user.SetGithubId(githubId);
    LinkSaveSucceeds(users, k, githubId, h, salt, now);
    SaveKeepsUsersValid(users, k, false, user.Fields(), h, salt, now);
    assert !user.isNew && user.Fields() == Draft(users.records[k].username, users.records[k].email, None, Some(githubId), false, true);
    var saved := Save(user, users, h, salt, now);
    users' := saved.value;
    account := Selected(k, users'.records[k]);
  }

  /** `User.create({ githubId, username, email })`: a validated insert that a unique index
      can refuse. */
  method CreateAccount(users: Users, profile: Profile, h: Hasher, salt: nat, now: int)
      returns (result: Result<Account, Fault>, users': Users)
    requires UsersValid(users)
    ensures UsersValid(users')
    ensures result.Err? ==> users' == users
    ensures result.Ok? <==> Validates(GithubDraft(profile), true) && !Collides(users, GithubUser(profile, now), None)
    ensures result.Ok? ==>
      && users' == Users(users.records[users.next := GithubUser(profile, now)], users.next + 1)
      && result.value == Selected(users.next, GithubUser(profile, now))
  {
    var user := new UserDocument.Create(users.next, GithubDraft(profile));
    SaveKeepsUsersValid(users, users.next, true, GithubDraft(profile), h, salt, now);
    var saved := Save(user, users, h, salt, now);
    if saved.Err? {
      return Err(saved.error), users;
    }
    users' := saved.value;
    result := Ok(Selected(user.id, users'.records[user.id]));
  }

  /** Resolving the same profile twice: the second call returns the same account and writes
      nothing. */
  method ResolveTwice(users: Users, profile: Profile, h: Hasher, salt: nat, now: int, later: int)
      returns (first: Result<Account, Fault>, second: Result<Account, Fault>, afterFirst: Users, afterSecond: Users)
    requires UsersValid(users)
    ensures first.Ok? ==> second == first && afterSecond == afterFirst
  {
    first, afterFirst := Resolve(users, profile, h, salt, now);
    second, afterSecond := Resolve(afterFirst, profile, h, salt, later);
    if first.Ok? {
      var k := FindByGithubId(afterFirst, profile.id).value;
      assert k == first.value.id;
    }
  }
}

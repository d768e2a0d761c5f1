/**
 * The User schema of models/User.js: field setters and validators, the sparse unique
 * indexes, the pre-save hashing hook, `isCorrectPassword`, and the user collection
 * with the `findOne` / `create` / `save` operations the routes and the GitHub
 * strategy use.
 */
module UserModel {
  import opened Wrappers
  import opened JsText
  import opened Faults

  type UserId = nat

  const MinUsernameLength := 3
  const MaxUsernameLength := 50

  /** bcrypt, as the two operations the service uses. The salt that `bcrypt.hash` draws at
      random is a parameter of `hash`. */
  datatype Hasher = Hasher(hash: (string, nat) -> string, compare: (string, string) -> bool)

  /** The one property of bcrypt the service relies on: a digest verifies against the
      password it was made from, whatever the salt. */
  ghost predicate HasherSound(h: Hasher) {
    forall p, salt :: h.compare(p, h.hash(p, salt))
  }

  /** A stored user document; `password` holds the digest. */
  datatype User = User(
    username: string,
    email: Option<string>,
    password: Option<string>,
    githubId: Option<string>,
    createdAt: int,
    updatedAt: int)

  /** A user document as default queries return it: `select: false` keeps the password out. */
  datatype Account = Account(
    id: UserId,
    username: string,
    email: Option<string>,
    githubId: Option<string>,
    createdAt: int,
    updatedAt: int)

  function Selected(id: UserId, u: User): Account {
    Account(id, u.username, u.email, u.githubId, u.createdAt, u.updatedAt)
  }

  /** Reading a user without selecting its password reveals nothing about it. */
  lemma SelectedHidesPassword(id: UserId, u: User, p: Option<string>)
    ensures Selected(id, u.(password := p)) == Selected(id, u)
    ensures Selected(id, u).id == id && Selected(id, u).username == u.username
  {
  }

  // ---- setters (applied on assignment and to query filters) ----

  /** `trim: true` on username. */
  function CastUsername(s: string): string {
    Trim(s)
  }

  /** `lowercase: true, trim: true` on email. */
  function CastEmail(s: string): string {
    Trim(ToLowerCase(s))
  }

  function CastOptionalEmail(e: Option<string>): Option<string> {
    if e.Some? then Some(CastEmail(e.value)) else None
  }

  // ---- validators ----

  /** `required`, `minlength: 3`, `maxlength: 50`, lengths in UTF-16 code units. */
  predicate ValidUsername(u: string) {
    MinUsernameLength <= Utf16Length(u) <= MaxUsernameLength
  }

  /** `/^.+@.+\..+$/`: some text, `@`, some text, `.`, some text, and no line terminator
      (which `.` does not match). */
  predicate MatchesEmailPattern(s: string) {
    (forall k :: 0 <= k < |s| ==> !IsLineTerminator(s[k]))
    && exists i, j :: 0 < i && i + 1 < j < |s| - 1 && s[i] == '@' && s[j] == '.'
  }

  /** The `match` validator accepts an absent or empty value. */
  predicate ValidEmail(e: Option<string>) {
    e.None? || e.value == [] || MatchesEmailPattern(e.value)
  }

  /** `required: function () { return !this.githubId; }`. */
  predicate PasswordRequired(githubId: Option<string>) {
    !Truthy(githubId)
  }

  lemma EmailPatternExamples()
    ensures MatchesEmailPattern("a@example.com")
    ensures !MatchesEmailPattern("not-an-email")
    ensures !MatchesEmailPattern("@example.com")
    ensures !MatchesEmailPattern("a@example.")
    ensures !MatchesEmailPattern("a@b\n.c")
  {
    assert "a@example.com"[1] == '@' && "a@example.com"[9] == '.';
    assert "not-an-email"[3] != '@';
    var s := "a@b\n.c";
    assert IsLineTerminator(s[3]);
  }

  /** The fields of a document as they stand when it is saved, with Mongoose's record of
      which paths were modified. */
  datatype Draft = Draft(
    username: string,
    email: Option<string>,
    password: Option<string>,
    githubId: Option<string>,
    passwordModified: bool,
    githubIdModified: bool)

  /** The fields of `new User({ username, email, password, githubId })`: the setters trim the
      username and normalise the email, and every path that is given counts as modified. */
  function NewDraft(username: string, email: Option<string>, password: Option<string>, githubId: Option<string>): Draft {
    Draft(CastUsername(username), CastOptionalEmail(email), password, githubId, password.Some?, githubId.Some?)
  }

  /** The validators Mongoose runs on save. A loaded document was read without its password,
      so the password validator runs only on a new document or a modified password. */
  predicate Validates(d: Draft, isNew: bool) {
    && ValidUsername(d.username)
    && ValidEmail(d.email)
    && ((isNew || d.passwordModified) && PasswordRequired(d.githubId) ==> Truthy(d.password))
  }

  /** The pre-save hook: hash the password only when it was modified and is present. */
  function HookedPassword(h: Hasher, salt: nat, password: Option<string>, modified: bool): (r: Option<string>)
    ensures !(modified && Truthy(password)) ==> r == password
    ensures modified && Truthy(password) ==> r.Some? && (HasherSound(h) ==> h.compare(password.value, r.value))
  {
    if modified && Truthy(password) then Some(h.hash(password.value, salt)) else password
  }

  /** `isCorrectPassword`: `bcrypt.compare` of the candidate against the stored digest, which
      rejects when the account has no password. */
  function IsCorrectPassword(h: Hasher, stored: Option<string>, candidate: string): (r: Result<bool, Fault>)
    ensures stored.None? <==> r == Err(HashArgumentsRequired)
    ensures stored.Some? ==> r == Ok(h.compare(candidate, stored.value))
    ensures forall p, salt :: HasherSound(h) && stored == Some(h.hash(p, salt)) && candidate == p ==> r == Ok(true)
  {
    if stored.None? then Err(HashArgumentsRequired) else Ok(h.compare(candidate, stored.value))
  }

  // ---- the collection ----

  datatype Users = Users(records: map<UserId, User>, next: UserId)

  /** What every stored user satisfies: it passed the validators, and it has a password or a
      GitHub id (the password validator guarantees one of the two). */
  ghost predicate WellFormed(u: User) {
    && ValidUsername(u.username)
    && ValidEmail(u.email)
    && (u.password.Some? || u.githubId.Some?)
  }

  /** `unique: true` on username; `unique: true, sparse: true` on email and githubId. */
  ghost predicate UniqueIndexes(records: map<UserId, User>) {
    forall a, b :: a in records && b in records && a != b ==>
      && records[a].username != records[b].username
      && (records[a].email.Some? ==> records[a].email != records[b].email)
      && (records[a].githubId.Some? ==> records[a].githubId != records[b].githubId)
  }

  ghost predicate UsersValid(t: Users) {
    && (forall id :: id in t.records ==> id < t.next && WellFormed(t.records[id]))
    && UniqueIndexes(t.records)
  }

  /** `User.findOne({ githubId })`. */
  function FindByGithubId(t: Users, githubId: string): (r: Option<UserId>)
    requires UsersValid(t)
    ensures r.Some? <==> exists id :: id in t.records && t.records[id].githubId == Some(githubId)
    ensures r.Some? ==> r.value in t.records && t.records[r.value].githubId == Some(githubId)
  {
    if exists id :: id in t.records && t.records[id].githubId == Some(githubId) then
      var id :| id in t.records && t.records[id].githubId == Some(githubId);
      Some(id)
    else
      None
  }

  /** `User.findOne({ email })`; the schema's email setters are applied to the filter value. */
  function FindByEmail(t: Users, email: string): (r: Option<UserId>)
    requires UsersValid(t)
    ensures r.Some? <==> exists id :: id in t.records && t.records[id].email == Some(CastEmail(email))
    ensures r.Some? ==> r.value in t.records && t.records[r.value].email == Some(CastEmail(email))
  {
    FindByStoredEmail(t, CastEmail(email))
  }

  function FindByStoredEmail(t: Users, key: string): (r: Option<UserId>)
    requires UsersValid(t)
    ensures r.Some? <==> exists id :: id in t.records && t.records[id].email == Some(key)
    ensures r.Some? ==> r.value in t.records && t.records[r.value].email == Some(key)
  {
    if exists id :: id in t.records && t.records[id].email == Some(key) then
      var id :| id in t.records && t.records[id].email == Some(key);
      Some(id)
    else
      None
  }

  /** Whether writing `u` under some id other than `self` would violate a unique index. */
  predicate Collides(t: Users, u: User, self: Option<UserId>) {
    exists id :: id in t.records && Some(id) != self &&
      (|| t.records[id].username == u.username
       || (u.email.Some? && t.records[id].email == u.email)
       || (u.githubId.Some? && t.records[id].githubId == u.githubId))
  }

  /** What `save()` does with a document: validate, run the pre-save hook, and write. A new
      document is inserted; an existing one has its modified paths and `updatedAt` written,
      and nothing is written when no path was modified. */
  function SaveOutcome(t: Users, id: UserId, isNew: bool, d: Draft, h: Hasher, salt: nat, now: int): Result<Users, Fault>
    requires !isNew ==> id in t.records
  {
    if !Validates(d, isNew) then Err(ValidationFailed)
    else
      var pw := HookedPassword(h, salt, d.password, d.passwordModified);
      if isNew then
        var u := User(d.username, d.email, pw, d.githubId, now, now);
        if Collides(t, u, None) then Err(DuplicateKey) else Ok(Users(t.records[id := u], t.next + 1))
      else if !(d.passwordModified || d.githubIdModified) then Ok(t)
      else
        var was := t.records[id];
        var u := was.(githubId := if d.githubIdModified then d.githubId else was.githubId,
                      password := if d.passwordModified then pw else was.password,
                      updatedAt := now);
        if Collides(t, u, Some(id)) then Err(DuplicateKey) else Ok(Users(t.records[id := u], t.next))
  }

  /** A successful save keeps every stored user well formed and the unique indexes intact. */
  lemma SaveKeepsUsersValid(t: Users, id: UserId, isNew: bool, d: Draft, h: Hasher, salt: nat, now: int)
    requires UsersValid(t)
    requires isNew ==> id == t.next
    requires !isNew ==> id in t.records
    requires !isNew ==> if d.githubIdModified then d.githubId.Some? else d.githubId == t.records[id].githubId
    ensures SaveOutcome(t, id, isNew, d, h, salt, now).Ok? ==> UsersValid(SaveOutcome(t, id, isNew, d, h, salt, now).value)
  {
    var r := SaveOutcome(t, id, isNew, d, h, salt, now);
    if r.Ok? && r.value != t {
      var pw := HookedPassword(h, salt, d.password, d.passwordModified);
      var t' := r.value;
      var u := t'.records[id];
      assert WellFormed(u);
      assert !Collides(t, u, if isNew then None else Some(id));
      forall a, b | a in t'.records && b in t'.records && a != b
        ensures t'.records[a].username != t'.records[b].username
        ensures t'.records[a].email.Some? ==> t'.records[a].email != t'.records[b].email
        ensures t'.records[a].githubId.Some? ==> t'.records[a].githubId != t'.records[b].githubId
      {
        if a == id {
          assert b in t.records;
        } else if b == id {
          assert a in t.records;
        }
      }
    }
  }

  /** The password placed in the store by a save verifies against the plain password that was
      set on the document, and a save that does not touch the password keeps the stored digest. */
  lemma SaveHashesOnlyModifiedPassword(t: Users, id: UserId, isNew: bool, d: Draft, h: Hasher, salt: nat, now: int)
    requires HasherSound(h)
    requires !isNew ==> id in t.records
    requires SaveOutcome(t, id, isNew, d, h, salt, now).Ok?
    ensures var t' := SaveOutcome(t, id, isNew, d, h, salt, now).value;
      && id in t'.records
      && (d.passwordModified && Truthy(d.password) ==>
            t'.records[id].password.Some? && h.compare(d.password.value, t'.records[id].password.value))
      && (!isNew && !d.passwordModified ==> t'.records[id].password == t.records[id].password)
  {
  }

  /** Linking a GitHub id to a stored account writes that id and `updatedAt` and nothing else. */
  function Linked(u: User, githubId: string, now: int): User {
    u.(githubId := Some(githubId), updatedAt := now)
  }

  /** Saving a loaded account whose `githubId` was set to an id no account holds yet always
      succeeds, and writes exactly the link. */
  lemma LinkSaveSucceeds(t: Users, k: UserId, githubId: string, h: Hasher, salt: nat, now: int)
    requires UsersValid(t) && k in t.records
    requires forall id :: id in t.records ==> t.records[id].githubId != Some(githubId)
    ensures var u := t.records[k];
      SaveOutcome(t, k, false, Draft(u.username, u.email, None, Some(githubId), false, true), h, salt, now)
        == Ok(Users(t.records[k := Linked(u, githubId, now)], t.next))
  {
    var u := t.records[k];
    var u' := Linked(u, githubId, now);
    assert Validates(Draft(u.username, u.email, None, Some(githubId), false, true), false);
  }

  /** A Mongoose document of the User model: the object the routes and the GitHub strategy
      change and then `save()`. */
  class UserDocument {
    const id: UserId
    var isNew: bool
    var username: string
    var email: Option<string>
    var password: Option<string>
    var githubId: Option<string>
    var passwordModified: bool
    var githubIdModified: bool

    function Fields(): Draft
      reads this
    {
      Draft(username, email, password, githubId, passwordModified, githubIdModified)
    }

    /** `new User({ ... })` (as `User.create` does), with the fields `NewDraft` gives. */
    constructor Create(id: UserId, d: Draft)
      ensures this.id == id && isNew && Fields() == d
    {
      this.id := id;
      this.isNew := true;
      username, email, password, githubId := d.username, d.email, d.password, d.githubId;
      passwordModified, githubIdModified := d.passwordModified, d.githubIdModified;
    }

    /** The document `findOne` returns: the stored fields except the unselected password,
        nothing modified. */
    constructor Load(id: UserId, u: User)
      ensures this.id == id && !isNew
      ensures username == u.username && email == u.email && githubId == u.githubId && password == None
      ensures !passwordModified && !githubIdModified
    {
      this.id := id;
      this.isNew := false;
      this.username := u.username;
      this.email := u.email;
      this.password := None;
      this.githubId := u.githubId;
      this.passwordModified := false;
      this.githubIdModified := false;
    }

    /** `user.githubId = g`; the path is marked modified when the value changes. */
    method SetGithubId(g: string)
      modifies this
      ensures githubId == Some(g)
      ensures githubIdModified == (old(githubIdModified) || old(githubId) != Some(g))
      ensures username == old(username) && email == old(email) && password == old(password)
      ensures passwordModified == old(passwordModified) && isNew == old(isNew)
    {
      githubIdModified := githubIdModified || githubId != Some(g);
      githubId := Some(g);
    }

    /** The `pre("save")` hook: replaces a modified, present password by its digest. */
    method PreSave(h: Hasher, salt: nat)
      modifies this`password
      ensures password == HookedPassword(h, salt, old(password), passwordModified)
    {
      if passwordModified && Truthy(password) {
        password := Some(h.hash(password.value, salt));
      }
    }
  }

  /** `doc.save()`: validation, then the pre-save hook on the document, then the write. The
      hook has changed the document's password even when the write is then refused; after a
      successful save the document is no longer new and no path counts as modified. */
  method Save(doc: UserDocument, t: Users, h: Hasher, salt: nat, now: int) returns (r: Result<Users, Fault>)
    requires !doc.isNew ==> doc.id in t.records
    modifies doc
    ensures r == SaveOutcome(t, doc.id, old(doc.isNew), old(doc.Fields()), h, salt, now)
    ensures doc.username == old(doc.username) && doc.email == old(doc.email) && doc.githubId == old(doc.githubId)
    ensures doc.password == if Validates(old(doc.Fields()), old(doc.isNew))
                            then HookedPassword(h, salt, old(doc.password), old(doc.passwordModified))
                            else old(doc.password)
    ensures r.Ok? ==> !doc.isNew && !doc.passwordModified && !doc.githubIdModified
    ensures r.Err? ==> && doc.isNew == old(doc.isNew)
                       && doc.passwordModified == old(doc.passwordModified)
                       && doc.githubIdModified == old(doc.githubIdModified)
  {
    var d := doc.Fields();
    var isNew := doc.isNew;
    if !Validates(d, isNew) {
      return Err(ValidationFailed);
    }
    doc.PreSave(h, salt);
    var pw := doc.password;
    if isNew {
      var u := User(d.username, d.email, pw, d.githubId, now, now);
      if Collides(t, u, None) {
        return Err(DuplicateKey);
      }
      r := Ok(Users(t.records[doc.id := u], t.next + 1));
    } else if !(d.passwordModified || d.githubIdModified) {
      r := Ok(t);
    } else {
      var was := t.records[doc.id];
      var u := was.(githubId := if d.githubIdModified then d.githubId else was.githubId,
                    password := if d.passwordModified then pw else was.password,
                    updatedAt := now);
      if Collides(t, u, Some(doc.id)) {
        return Err(DuplicateKey);
      }
      r := Ok(Users(t.records[doc.id := u], t.next));
    }
    doc.isNew, doc.passwordModified, doc.githubIdModified := false, false, false;
  }
}

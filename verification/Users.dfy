/** The in-memory user repository with its two indexes, and the role rules of the user service. */
module Users {
  import opened Basics
  import opened Text
  import Utf8

  datatype User = User(userId: string, email: string, username: string, passwordHash: string, locale: string, role: string)

  datatype UserError =
    | EmailTaken | UsernameTaken | NotFound | EmailRequired | EmailInvalid | UsernameTooShort | UsernameTooLong
    | PasswordTooShort | ActorRequired | TargetRequired | Forbidden

  /** The three maps. */
  datatype Directory = Directory(byId: map<string, User>, byMail: map<string, string>, byName: map<string, string>)

  // ---------- the repository ----------

  class MemoryRepository {
    var usersById: map<string, User>
    var usersByMail: map<string, string>
    var usersByName: map<string, string>

    constructor ()
      ensures View() == EMPTY
    {
      usersById, usersByMail, usersByName := map[], map[], map[];
    }

    function View(): Directory
      reads this
    {
      Directory(usersById, usersByMail, usersByName)
    }

    method CreateUser(user: User) returns (error: Option<UserError>)
      modifies this
      ensures View() == Created(old(View()), user)
      ensures error == Refusal(old(View()), user)
    {
      if user.email in usersByMail {
        return Some(EmailTaken);
      }
      var normalizedUsername := ToLower(user.username);
      if normalizedUsername in usersByName {
        return Some(UsernameTaken);
      }
      usersById := usersById[user.userId := user];
      usersByMail := usersByMail[user.email := user.userId];
      usersByName := usersByName[normalizedUsername := user.userId];
      error := None;
    }

    method GetUser(userId: string) returns (r: Result<User, UserError>)
      ensures r == if userId in usersById then Ok(usersById[userId]) else Err(NotFound)
    {
      if userId !in usersById {
        return Err(NotFound);
      }
      r := Ok(usersById[userId]);
    }

    /** With consistent indexes this is a scan: by email first, then by username. */
    method GetUserByLogin(login: string) returns (r: Result<User, UserError>)
      requires Indexed(View())
      ensures ScanFinds(usersById, ToLower(TrimSpace(login)), r)
    {
      var normalized := ToLower(TrimSpace(login));
      var userId;
      if normalized in usersByMail {
        userId := usersByMail[normalized];
      } else if normalized in usersByName {
        userId := usersByName[normalized];
      } else {
        LookupIsScan(View(), normalized);
        return Err(NotFound);
      }
      LookupIsScan(View(), normalized);
      r := Ok(usersById[userId]);
    }

    method UpdateUserRole(userId: string, role: string) returns (error: Option<UserError>)
      modifies this`usersById
      ensures View() == WithRole(old(View()), userId, role)
      ensures error == if userId in old(usersById) then None else Some(NotFound)
    {
      if userId !in usersById {
        return Some(NotFound);
      }
      var user := usersById[userId];
      user := user.(role := role);
      usersById := usersById[userId := user];
      error := None;
    }
  }

  const EMPTY := Directory(map[], map[], map[])

  function Refusal(d: Directory, user: User): Option<UserError> {
    if user.email in d.byMail then Some(EmailTaken)
    else if ToLower(user.username) in d.byName then Some(UsernameTaken)
    else None
  }

  function Created(d: Directory, user: User): Directory {
    if Refusal(d, user).Some? then d
    else
      Directory(d.byId[user.userId := user], d.byMail[user.email := user.userId], d.byName[ToLower(user.username) := user.userId])
  }

  function WithRole(d: Directory, userId: string, role: string): Directory {
    if userId in d.byId then d.(byId := d.byId[userId := d.byId[userId].(role := role)]) else d
  }

  // ---------- the indexes ----------

  /** Both directions: an index entry points at a user with that key, and every user is found under its keys. */
  ghost predicate Indexed(d: Directory) {
    && (forall id | id in d.byId :: d.byId[id].userId == id)
    && (forall mail | mail in d.byMail :: d.byMail[mail] in d.byId && d.byId[d.byMail[mail]].email == mail)
    && (forall id | id in d.byId :: d.byId[id].email in d.byMail && d.byMail[d.byId[id].email] == id)
    && (forall name | name in d.byName :: d.byName[name] in d.byId && ToLower(d.byId[d.byName[name]].username) == name)
    && (forall id | id in d.byId :: ToLower(d.byId[id].username) in d.byName && d.byName[ToLower(d.byId[id].username)] == id)
  }

  /** The user whose email is the login; failing that, the user whose lower-cased name is; failing both, none. */
  ghost predicate ScanFinds(byId: map<string, User>, login: string, r: Result<User, UserError>) {
    if exists id :: id in byId && byId[id].email == login then
      r.Ok? && r.value.email == login && r.value.userId in byId && byId[r.value.userId] == r.value
      && forall id | id in byId && byId[id].email == login :: byId[id] == r.value
    else if exists id :: id in byId && ToLower(byId[id].username) == login then
      r.Ok? && ToLower(r.value.username) == login && r.value.userId in byId && byId[r.value.userId] == r.value
      && forall id | id in byId && ToLower(byId[id].username) == login :: byId[id] == r.value
    else r == Err(NotFound)
  }

  function Lookup(d: Directory, login: string): Result<User, UserError>
    requires Indexed(d)
  {
    if login in d.byMail then Ok(d.byId[d.byMail[login]])
    else if login in d.byName then Ok(d.byId[d.byName[login]])
    else Err(NotFound)
  }

  lemma LookupIsScan(d: Directory, login: string)
    requires Indexed(d)
    ensures ScanFinds(d.byId, login, Lookup(d, login))
  {
    if login in d.byMail {
      assert d.byId[d.byMail[login]].email == login;
    } else if login in d.byName {
      assert ToLower(d.byId[d.byName[login]].username) == login;
    }
  }

  lemma CreatedIndexed(d: Directory, user: User)
    requires Indexed(d) && (Refusal(d, user).None? ==> user.userId !in d.byId)
    ensures Indexed(Created(d, user))
  {
    if Refusal(d, user).None? {
      var after := Created(d, user);
      forall id | id in after.byId ensures after.byId[id].email in after.byMail && after.byMail[after.byId[id].email] == id {
        assert id != user.userId ==> d.byId[id].email in d.byMail;
      }
      forall id | id in after.byId
        ensures ToLower(after.byId[id].username) in after.byName && after.byName[ToLower(after.byId[id].username)] == id
      {
        assert id != user.userId ==> ToLower(d.byId[id].username) in d.byName;
      }
    }
  }

  lemma WithRoleIndexed(d: Directory, userId: string, role: string)
    requires Indexed(d)
    ensures Indexed(WithRole(d, userId, role))
  {
  }

  /** An address whose entry points at a user with another address. */
  predicate StaleMail(d: Directory, mail: string) {
    mail in d.byMail && d.byMail[mail] in d.byId && d.byId[d.byMail[mail]].email != mail
  }

  ghost predicate Stale(d: Directory) {
    exists mail :: StaleMail(d, mail)
  }

  /** Overwriting a known user id with other keys leaves the old keys behind: the hypothesis on ids is needed. */
  lemma ReusedIdBreaksIndex(d: Directory, user: User)
    requires Indexed(d) && Refusal(d, user).None? && user.userId in d.byId
    ensures Stale(Created(d, user)) && !Indexed(Created(d, user))
  {
    assert StaleMail(Created(d, user), d.byId[user.userId].email);
  }

  /** Storing a user keeps the indexes exact iff it is refused or brings a new id. */
  lemma CreatedIndexedIff(d: Directory, user: User)
    requires Indexed(d)
    ensures Indexed(Created(d, user)) <==> Refusal(d, user).Some? || user.userId !in d.byId
  {
    if Refusal(d, user).Some? || user.userId !in d.byId {
      CreatedIndexed(d, user);
    } else {
      ReusedIdBreaksIndex(d, user);
    }
  }

  /** Such a case: a second user under the id of the first. */
  lemma ReusedIdHappens() returns (d: Directory, user: User)
    ensures Indexed(d) && Refusal(d, user).None? && user.userId in d.byId
    ensures d == Created(EMPTY, d.byId[user.userId]) && !Indexed(Created(d, user))
  {
    var first := User("usr_1", "ann@example.org", "ann", "", "zh-CN", "student");
    user := User("usr_1", "bob@example.org", "bob", "", "zh-CN", "student");
    d := Created(EMPTY, first);
    CreatedIndexed(EMPTY, first);
    assert first.email[0] != user.email[0];
    assert ToLower(first.username)[0] == 'a' && ToLower(user.username)[0] == 'b';
    ReusedIdBreaksIndex(d, user);
  }

  // ---------- the service ----------

  const ADMIN := "admin"
  const TEACHER := "teacher"
  const STUDENT := "student"

  function NormalizeUserRole(role: string): (r: string)
    ensures r in {ADMIN, TEACHER, STUDENT}
  {
    var lower := ToLower(TrimSpace(role));
    if lower == ADMIN then ADMIN else if lower == TEACHER then TEACHER else STUDENT
  }

  predicate AdminRole(role: string) {
    NormalizeUserRole(role) == ADMIN
  }

  datatype Registration = Registration(email: string, username: string, password: string, locale: string)

  function NormalizeLocale(locale: string): string {
    if locale == "en-US" || locale == "ja-JP" then locale else "zh-CN"
  }

  /** Address syntax and password hashing are parameters. */
  datatype Rules = Rules(validEmail: string -> bool, hash: string -> string)

  /** `len` of a Go string. */
  function Bytes(s: string): nat {
    |Utf8.Encode(s)|
  }

  function NewUser(rules: Rules, req: Registration, id: string): (r: Result<User, UserError>)
    ensures r.Ok? ==> r.value.userId == id && r.value.role == STUDENT
  {
    var email := TrimSpace(ToLower(req.email));
    var username := TrimSpace(req.username);
    if email == "" then Err(EmailRequired)
    else if !rules.validEmail(email) then Err(EmailInvalid)
    else if Bytes(username) < 3 then Err(UsernameTooShort)
    else if Bytes(username) > 32 then Err(UsernameTooLong)
    else if Bytes(req.password) < 12 then Err(PasswordTooShort)
    else Ok(User(id, email, username, rules.hash(req.password), NormalizeLocale(req.locale), STUDENT))
  }

  datatype Call =
    | Register(req: Registration, id: string)
    | ChangeRole(actorId: string, targetId: string, role: string)

  /** The stored role of a user, canonical, or None for an unknown user. */
  function ActorRole(d: Directory, userId: string): Option<string> {
    if TrimSpace(userId) == "" || userId !in d.byId then None else Some(NormalizeUserRole(d.byId[userId].role))
  }

  /** What a call asks of the repository. */
  datatype Effect = Nothing | Insert(user: User) | SetRole(userId: string, role: string)

  function EffectOf(rules: Rules, d: Directory, call: Call): Effect {
    match call
    case Register(req, id) =>
      (match NewUser(rules, req, id)
       case Err(_) => Nothing
       case Ok(user) => Insert(user))
    case ChangeRole(actorId, targetId, role) =>
      var actor, target := TrimSpace(actorId), TrimSpace(targetId);
      if actor == "" || target == "" || ActorRole(d, actor) != Some(ADMIN) then Nothing
      else SetRole(target, NormalizeUserRole(role))
  }

  function Apply(d: Directory, e: Effect): Directory {
    match e
    case Nothing => d
    case Insert(user) => Created(d, user)
    case SetRole(userId, role) => WithRole(d, userId, role)
  }

  /** A role change does something only when its actor is stored as an admin. */
  lemma RoleEffect(rules: Rules, d: Directory, actorId: string, targetId: string, role: string)
    ensures var actor, target := TrimSpace(actorId), TrimSpace(targetId);
            Exec(rules, d, ChangeRole(actorId, targetId, role))
            == if actor == "" || target == "" || ActorRole(d, actor) != Some(ADMIN) then d
               else WithRole(d, target, NormalizeUserRole(role))
  {
  }

  function Exec(rules: Rules, d: Directory, call: Call): Directory {
    Apply(d, EffectOf(rules, d, call))
  }

  class Service {
    const repository: MemoryRepository

    constructor (repository: MemoryRepository)
      ensures this.repository == repository
    {
      this.repository := repository;
    }

    /** `ActorRole`, as a call to the repository. */
    method ReadActorRole(userId: string) returns (role: Option<string>)
      ensures role == ActorRole(repository.View(), userId)
    {
      if TrimSpace(userId) == "" {
        return None;
      }
      var user := repository.GetUser(userId);
      if user.Err? {
        return None;
      }
      role := Some(NormalizeUserRole(user.value.role));
    }

    method Register(rules: Rules, req: Registration, newId: string) returns (error: Option<UserError>)
      modifies repository
      ensures repository.View() == Exec(rules, old(repository.View()), Call.Register(req, newId))
      ensures error == match NewUser(rules, req, newId)
                       case Err(e) => Some(e)
                       case Ok(user) => Refusal(old(repository.View()), user)
      ensures var email, username := TrimSpace(ToLower(req.email)), TrimSpace(req.username);
              && (error.None? <==>
                    && email != "" && rules.validEmail(email)
                    && 3 <= |Utf8.Encode(username)| <= 32 && 12 <= |Utf8.Encode(req.password)|
                    && email !in old(repository.usersByMail) && ToLower(username) !in old(repository.usersByName))
              && (error.None? ==>
                    && newId in repository.usersById && repository.usersById[newId].userId == newId
                    && repository.usersById[newId].email == email && repository.usersById[newId].username == username
                    && repository.usersById[newId].passwordHash == rules.hash(req.password)
                    && repository.usersById[newId].locale == (if req.locale in {"en-US", "ja-JP"} then req.locale else "zh-CN")
                    && repository.usersById[newId].role == "student")
      ensures error.Some? ==> repository.View() == old(repository.View())
      ensures forall id | id in old(repository.usersById) && id != newId ::
                id in repository.usersById && repository.usersById[id] == old(repository.usersById)[id]
    {
      var email := TrimSpace(ToLower(req.email));
      if email == "" {
        return Some(EmailRequired);
      }
      if !rules.validEmail(email) {
        return Some(EmailInvalid);
      }
      var username := TrimSpace(req.username);
      if Bytes(username) < 3 {
        return Some(UsernameTooShort);
      }
      if Bytes(username) > 32 {
        return Some(UsernameTooLong);
      }
      if Bytes(req.password) < 12 {
        return Some(PasswordTooShort);
      }
      var user := User(newId, email, username, rules.hash(req.password), NormalizeLocale(req.locale), STUDENT);
      error := repository.CreateUser(user);
    }

    method UpdateUserRole(rules: Rules, actorId: string, targetId: string, role: string) returns (error: Option<UserError>)
      modifies repository
      ensures repository.View() == Exec(rules, old(repository.View()), ChangeRole(actorId, targetId, role))
      ensures error == Some(Forbidden) <==>
                TrimSpace(actorId) != "" && TrimSpace(targetId) != "" && ActorRole(old(repository.View()), TrimSpace(actorId)) != Some(ADMIN)
      ensures TrimSpace(actorId) != "" && TrimSpace(targetId) != "" ==>
                var actor := TrimSpace(actorId);
                error != Some(Forbidden) <==>
                  && actor in old(repository.usersById)
                  && ToLower(TrimSpace(old(repository.usersById)[actor].role)) == "admin"
      ensures error == Some(ActorRequired) <==> TrimSpace(actorId) == ""
      ensures error == Some(TargetRequired) <==> TrimSpace(actorId) != "" && TrimSpace(targetId) == ""
      ensures error == Some(NotFound) <==>
                && TrimSpace(actorId) != "" && TrimSpace(targetId) != "" && TrimSpace(targetId) !in old(repository.usersById)
                && ActorRole(old(repository.View()), TrimSpace(actorId)) == Some(ADMIN)
      ensures error.None? ==>
                var target, wanted := TrimSpace(targetId), ToLower(TrimSpace(role));
                && target in old(repository.usersById)
                && repository.usersById == old(repository.usersById)[target := repository.usersById[target]]
                && repository.usersById[target] == old(repository.usersById)[target].(role := repository.usersById[target].role)
                && repository.usersById[target].role == (if wanted in {"admin", "teacher"} then wanted else "student")
      ensures error.Some? ==> repository.View() == old(repository.View())
    {
      var actor := TrimSpace(actorId);
      var target := TrimSpace(targetId);
      RoleEffect(rules, repository.View(), actorId, targetId, role);
      TrimTwice(actorId);
      if actor == "" {
        return Some(ActorRequired);
      }
      if target == "" {
        return Some(TargetRequired);
      }
      var normalized := NormalizeUserRole(role);
      var actorRole := ReadActorRole(actor);
      if actorRole != Some(ADMIN) {
        return Some(Forbidden);
      }
      error := repository.UpdateUserRole(target, normalized);
    }
  }

  // ---------- runs ----------

  ghost function ExecAll(rules: Rules, d: Directory, calls: seq<Call>): Directory
    decreases calls
  {
    if calls == [] then d else ExecAll(rules, Exec(rules, d, calls[0]), calls[1..])
  }

  /** A user that is stored brings an id that is new; one that is refused may bring any. */
  predicate BringsNewId(d: Directory, e: Effect) {
    e.Insert? && Refusal(d, e.user).None? ==> e.user.userId !in d.byId
  }

  /** Every registration that succeeds brings an id that is new at its turn. */
  ghost predicate FreshIds(rules: Rules, d: Directory, calls: seq<Call>)
    decreases calls
  {
    if calls == [] then true
    else BringsNewId(d, EffectOf(rules, d, calls[0])) && FreshIds(rules, Exec(rules, d, calls[0]), calls[1..])
  }

  /**
    From any consistent start the indexes are exact in both directions after a run exactly when every
    registration that succeeded in it brought a new id: what a reused id breaks, no later call repairs.
   */
  lemma {:induction false} RunsStayIndexed(rules: Rules, d: Directory, calls: seq<Call>)
    requires Indexed(d)
    ensures Indexed(ExecAll(rules, d, calls)) <==> FreshIds(rules, d, calls)
    decreases calls
  {
    if calls != [] {
      EffectIndexedIff(d, EffectOf(rules, d, calls[0]));
      if BringsNewId(d, EffectOf(rules, d, calls[0])) {
        RunsStayIndexed(rules, Exec(rules, d, calls[0]), calls[1..]);
      } else {
        ReusedIdBreaksIndex(d, EffectOf(rules, d, calls[0]).user);
        StaysStale(rules, Exec(rules, d, calls[0]), calls[1..]);
      }
    }
  }

  lemma EffectIndexedIff(d: Directory, e: Effect)
    requires Indexed(d)
    ensures Indexed(Apply(d, e)) <==> BringsNewId(d, e)
  {
    match e {
      case Nothing =>
      case Insert(user) => CreatedIndexedIff(d, user);
      case SetRole(userId, role) => WithRoleIndexed(d, userId, role);
    }
  }

  lemma {:induction false} StaysStale(rules: Rules, d: Directory, calls: seq<Call>)
    requires Stale(d)
    ensures !Indexed(ExecAll(rules, d, calls))
    decreases calls
  {
    if calls != [] {
      EffectKeepsStale(d, EffectOf(rules, d, calls[0]));
      StaysStale(rules, Exec(rules, d, calls[0]), calls[1..]);
    }
  }

  /** An address that has an entry is refused, so nobody can register it again. */
  lemma EffectKeepsStale(d: Directory, e: Effect)
    requires Stale(d)
    ensures Stale(Apply(d, e))
  {
    var mail :| StaleMail(d, mail);
    assert StaleMail(Apply(d, e), mail);
  }

  /** Registrations insert students under the new id; only an admin's role change sets a role. */
  lemma EffectFacts(rules: Rules, d: Directory, call: Call)
    ensures var e := EffectOf(rules, d, call);
            && (e.Insert? ==> call.Register? && e.user.userId == call.id && e.user.role == STUDENT)
            && (e.SetRole? ==>
                  && call.ChangeRole? && ActorRole(d, TrimSpace(call.actorId)) == Some(ADMIN)
                  && e.userId == TrimSpace(call.targetId) && e.role == NormalizeUserRole(call.role))
  {
  }

  predicate IsAdmin(d: Directory, userId: string) {
    userId in d.byId && AdminRole(d.byId[userId].role)
  }

  lemma RolesAreCanonical(role: string)
    ensures NormalizeUserRole(NormalizeUserRole(role)) == NormalizeUserRole(role)
    ensures NormalizeUserRole(role) != ""
  {
    RoleIsCanonical(NormalizeUserRole(role));
  }

  lemma RoleIsCanonical(role: string)
    requires role in {ADMIN, TEACHER, STUDENT}
    ensures NormalizeUserRole(role) == role && role != ""
  {
    CanonicalRole(role);
  }

  lemma CanonicalRole(role: string)
    requires role != "" && forall c | c in role :: 'a' <= c <= 'z'
    ensures ToLower(TrimSpace(role)) == role
  {
    assert role[0] in role && role[|role| - 1] in role;
    assert TrimSpace(role) == role;
    forall i | 0 <= i < |role| ensures LowerChar(role[i]) == role[i] {
      assert role[i] in role;
    }
    assert ToLower(role) == role;
  }

  lemma StudentsAreNoAdmins()
    ensures !AdminRole(STUDENT)
  {
    CanonicalRole(STUDENT);
  }

  /** Also when the id is not new: whoever is stored under it is then a student. */
  lemma RegistrationMakesNoAdmin(d: Directory, user: User, userId: string)
    requires user.role == STUDENT && !IsAdmin(d, userId)
    ensures !IsAdmin(Created(d, user), userId)
  {
    StudentsAreNoAdmins();
  }

  /** An effect makes an account admin only by setting its role to one that means admin. */
  lemma EffectMakesAdmin(d: Directory, e: Effect, userId: string)
    requires !IsAdmin(d, userId) && IsAdmin(Apply(d, e), userId)
    requires e.Insert? ==> e.user.role == STUDENT
    ensures e.SetRole? && e.userId == userId && AdminRole(e.role)
  {
    if e.Insert? {
      RegistrationMakesNoAdmin(d, e.user, userId);
    }
  }

  lemma CanonicalAdmin(role: string)
    ensures AdminRole(NormalizeUserRole(role)) <==> AdminRole(role)
  {
    RolesAreCanonical(role);
  }

  lemma ActorIsAdmin(d: Directory, userId: string)
    requires ActorRole(d, userId) == Some(ADMIN)
    ensures IsAdmin(d, userId)
  {
  }

  /** A call makes an account admin only if it is a role change by an actor already stored as admin. */
  lemma OnlyAdminsMakeAdmins(rules: Rules, d: Directory, call: Call, userId: string)
    requires !IsAdmin(d, userId) && IsAdmin(Exec(rules, d, call), userId)
    ensures call.ChangeRole? && IsAdmin(d, TrimSpace(call.actorId))
    ensures userId == TrimSpace(call.targetId) && AdminRole(call.role)
  {
    EffectFacts(rules, d, call);
    EffectMakesAdmin(d, EffectOf(rules, d, call), userId);
    ActorIsAdmin(d, TrimSpace(call.actorId));
    CanonicalAdmin(call.role);
  }

  /** So from a directory without admins no run ever stores one. */
  lemma {:induction false} NoAdminFromNothing(rules: Rules, d: Directory, calls: seq<Call>, userId: string)
    requires forall id :: !IsAdmin(d, id)
    ensures !IsAdmin(ExecAll(rules, d, calls), userId)
    decreases calls
  {
    if calls != [] {
      var next := Exec(rules, d, calls[0]);
      forall id ensures !IsAdmin(next, id) {
        if IsAdmin(next, id) {
          OnlyAdminsMakeAdmins(rules, d, calls[0], id);
        }
      }
      NoAdminFromNothing(rules, next, calls[1..], userId);
    }
  }

  /** An unknown role is never refused, although the service has an error for it: it silently means student. */
  lemma UnknownRoleMeansStudent(rules: Rules, d: Directory, actorId: string, targetId: string, role: string)
    requires TrimSpace(actorId) != "" && TrimSpace(targetId) in d.byId && TrimSpace(targetId) != ""
    requires ActorRole(d, TrimSpace(actorId)) == Some(ADMIN)
    requires ToLower(TrimSpace(role)) != ADMIN && ToLower(TrimSpace(role)) != TEACHER
    ensures Exec(rules, d, ChangeRole(actorId, targetId, role)) == WithRole(d, TrimSpace(targetId), STUDENT)
    ensures WithRole(d, TrimSpace(targetId), STUDENT).byId[TrimSpace(targetId)].role == STUDENT
  {
    UnknownRoleNormalizes(role);
    RoleEffect(rules, d, actorId, targetId, role);
    RoleIsSet(d, TrimSpace(targetId), STUDENT);
  }

  lemma UnknownRoleNormalizes(role: string)
    requires ToLower(TrimSpace(role)) != ADMIN && ToLower(TrimSpace(role)) != TEACHER
    ensures NormalizeUserRole(role) == STUDENT
  {
  }

  lemma RoleIsSet(d: Directory, userId: string, role: string)
    requires userId in d.byId
    ensures userId in WithRole(d, userId, role).byId && WithRole(d, userId, role).byId[userId].role == role
  {
  }
}

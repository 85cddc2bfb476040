/**
 * Users, roles, sessions and cached users as one state machine. Each service call is one step; keys may expire
 * at any moment, session uuids are new, and user and role ids are never used again.
 */
module Sessions {
  import opened Options
  import opened RedisKeys

  const TOKEN_EXPIRE_SECONDS: int := 60 * 60 * 2
  const TOKEN_REFRESH_EXPIRE_SECONDS: int := 60 * 60 * 24 * 1

  datatype User = User(name: string, enabled: bool, multi: bool, superuser: bool, staff: bool, profile: int)

  datatype Role = Role(name: string, enabled: bool, info: int)

  /** What `GetUserInfoWithRelationDetail` shows of a user: the row, and the user's roles that exist. */
  datatype View = View(user: User, roles: map<nat, Role>)

  /** A JSON web token, by its payload. */
  datatype Token = Token(uid: nat, sid: Sid, expires: int)

  datatype Value = TokenValue(token: Token) | ViewValue(view: View) | Info

  datatype State = State(
    users: map<nat, User>,
    roles: map<nat, Role>,
    userRoles: set<(nat, nat)>,
    takenUsers: set<nat>,
    takenRoles: set<nat>,
    takenSids: set<Sid>,
    store: map<Key, Value>)

  datatype Permission = Superuser | Staff | Status | MultiLogin

  datatype Outcome =
    | Refused
    | Done
    | Opened(access: Token)
    | Renewed(access: Token, refresh: Token)
    | Accepted(view: View)

  function ViewOf(s: State, uid: nat): View
    requires uid in s.users
  {
    View(s.users[uid], map r | r in s.roles && (uid, r) in s.userRoles :: s.roles[r])
  }

  /** `get_current_user` lets the user through: enabled, and not all of its roles disabled. */
  predicate Admissible(v: View) {
    v.user.enabled && (v.roles == map[] || exists r :: r in v.roles && v.roles[r].enabled)
  }

  // ---------------------------------------------------------------- tokens

  function AccessToken(uid: nat, sid: Sid, now: int): Token {
    Token(uid, sid, now + TOKEN_EXPIRE_SECONDS)
  }

  function RefreshToken(uid: nat, sid: Sid, now: int): Token {
    Token(uid, sid, now + TOKEN_REFRESH_EXPIRE_SECONDS)
  }

  function WithAccess(store: map<Key, Value>, uid: nat, sid: Sid, now: int, multi: bool): map<Key, Value> {
    ((if multi then store else Without(store, AccessKeys, uid, {})) - {Cached(uid)})
      [Access(uid, sid) := TokenValue(AccessToken(uid, sid, now))][Extra(uid, sid) := Info]
  }

  function WithRefresh(store: map<Key, Value>, uid: nat, sid: Sid, now: int, multi: bool): map<Key, Value> {
    (if multi then store else Without(store, RefreshKeys, uid, {}))
      [Refresh(uid, sid) := TokenValue(RefreshToken(uid, sid, now))]
  }

  function SetUser(s: State, uid: nat, user: User): State {
    s.(users := s.users[uid := user])
  }

  /** A new session for an existing user, with the access and the refresh token. */
  function OpenSession(s: State, uid: nat, sid: Sid, now: int): State
    requires uid in s.users
  {
    var multi := s.users[uid].multi;
    s.(store := WithRefresh(WithAccess(s.store, uid, sid, now, multi), uid, sid, now, multi),
       takenSids := s.takenSids + {sid})
  }

  // ---------------------------------------------------------------- service calls

  /** `verified` stands for the password and captcha checks; `profile` is the row after the login time is set. */
  function Login(s: State, uid: nat, verified: bool, sid: Sid, now: int, profile: int): (State, Outcome) {
    if uid !in s.users || !s.users[uid].enabled || !verified || sid in s.takenSids then (s, Refused)
    else
      (OpenSession(SetUser(s, uid, s.users[uid].(profile := profile)), uid, sid, now),
       Renewed(AccessToken(uid, sid, now), RefreshToken(uid, sid, now)))
  }

  function SwaggerLogin(s: State, uid: nat, verified: bool, sid: Sid, now: int, profile: int): (State, Outcome) {
    if uid !in s.users || !s.users[uid].enabled || !verified || sid in s.takenSids then (s, Refused)
    else
      var t := SetUser(s, uid, s.users[uid].(profile := profile));
      (t.(store := WithAccess(t.store, uid, sid, now, t.users[uid].multi), takenSids := t.takenSids + {sid}),
       Opened(AccessToken(uid, sid, now)))
  }

  /** An OAuth2 login of an existing user does not look at its status. */
  function OAuth2Login(s: State, uid: nat, sid: Sid, now: int, profile: int): (State, Outcome) {
    if uid !in s.users || sid in s.takenSids then (s, Refused)
    else
      (SetUser(OpenSession(s, uid, sid, now), uid, s.users[uid].(profile := profile)),
       Renewed(AccessToken(uid, sid, now), RefreshToken(uid, sid, now)))
  }

  function AddUser(s: State, uid: nat, user: User, roleIds: set<nat>): State {
    s.(users := s.users[uid := user],
       takenUsers := s.takenUsers + {uid},
       userRoles := s.userRoles + set r | r in roleIds && r in s.roles :: (uid, r))
  }

  predicate UserNamed(users: map<nat, User>, name: string) {
    exists u :: u in users && users[u].name == name
  }

  predicate RoleNamed(roles: map<nat, Role>, name: string) {
    exists r :: r in roles && roles[r].name == name
  }

  /** The name, with as many of these random suffixes as it takes until no user has it. */
  function FreeName(users: map<nat, User>, name: string, suffixes: seq<string>): Option<string>
    decreases suffixes
  {
    if !UserNamed(users, name) then Some(name)
    else if suffixes == [] then None
    else FreeName(users, name + "_" + suffixes[0], suffixes[1..])
  }

  function OAuth2User(name: string, profile: int): User {
    User(name, true, false, false, true, profile)
  }

  function OAuth2Register(s: State, uid: nat, name: string, suffixes: seq<string>, role: nat, sid: Sid, now: int,
                          profile: int): (State, Outcome)
  {
    var free := FreeName(s.users, name, suffixes);
    if uid in s.takenUsers || role !in s.roles || sid in s.takenSids || free.None? then (s, Refused)
    else
      OAuth2Login(AddUser(s, uid, OAuth2User(free.value, profile), {role}), uid, sid, now, profile)
  }

  /** Takes a refresh token: it and the access token of its session go, a new session begins. */
  function Refreshed(s: State, token: Token, sid: Sid, now: int): (State, Outcome) {
    if token.expires < now || token.uid !in s.users || !s.users[token.uid].enabled || sid in s.takenSids then
      (s, Refused)
    else if !s.users[token.uid].multi && HasSession(s.store, token.uid) then (s, Refused)
    else if Refresh(token.uid, token.sid) !in s.store || s.store[Refresh(token.uid, token.sid)] != TokenValue(token) then
      (s, Refused)
    else
      (OpenSession(s.(store := s.store - {Refresh(token.uid, token.sid), Access(token.uid, token.sid)}),
                   token.uid, sid, now),
       Renewed(AccessToken(token.uid, sid, now), RefreshToken(token.uid, sid, now)))
  }

  predicate HasSession(store: map<Key, Value>, uid: nat) {
    exists k :: k in store && k.Access? && k.uid == uid
  }

  function Logout(s: State, uid: nat, sid: Sid, cookie: bool): (State, Outcome) {
    (s.(store := s.store - {Access(uid, sid), Extra(uid, sid)} - (if cookie then {Refresh(uid, sid)} else {})), Done)
  }

  function Revoke(s: State, uid: nat, sid: Sid): (State, Outcome) {
    (s.(store := s.store - {Access(uid, sid), Extra(uid, sid)}), Done)
  }

  /** `jwt_authentication`: the stored token must be this one, and the user comes from the cache or the tables. */
  function Authenticate(s: State, token: Token, now: int): (State, Outcome) {
    var key := Access(token.uid, token.sid);
    if token.expires < now || key !in s.store || s.store[key] != TokenValue(token) then (s, Refused)
    else GetJwtUser(s, token.uid)
  }

  function GetJwtUser(s: State, uid: nat): (State, Outcome) {
    if Cached(uid) in s.store then
      (s, if s.store[Cached(uid)].ViewValue? then Accepted(s.store[Cached(uid)].view) else Refused)
    else if uid !in s.users || !Admissible(ViewOf(s, uid)) then (s, Refused)
    else (s.(store := s.store[Cached(uid) := ViewValue(ViewOf(s, uid))]), Accepted(ViewOf(s, uid)))
  }

  /** `password` tells whether one was given. */
  function CreateUser(s: State, uid: nat, name: string, password: bool, profile: int, roleIds: set<nat>)
    : (State, Outcome)
  {
    if uid in s.takenUsers || UserNamed(s.users, name) || !password || !(roleIds <= s.roles.Keys) then (s, Refused)
    else (AddUser(s, uid, User(name, true, false, false, false, profile), roleIds), Done)
  }

  function UpdateUser(s: State, uid: nat, name: string, profile: int, roleIds: set<nat>): (State, Outcome) {
    if uid !in s.users || !(roleIds <= s.roles.Keys) then (s, Refused)
    else if name != s.users[uid].name && UserNamed(s.users, name) then (s, Refused)
    else
      (s.(users := s.users[uid := s.users[uid].(name := name, profile := profile)],
          userRoles := (set p | p in s.userRoles && p.0 != uid) + set r | r in roleIds :: (uid, r),
          store := s.store - {Cached(uid)}), Done)
  }

  /**
   * The new multi-login flag is the negation of the requesting user's flag, not of the target's, because the
   * code compares the id with the target it has just loaded by that id.
   */
  function UpdatePermission(s: State, uid: nat, what: Permission, requester: nat, requesterSid: Sid,
                            requesterMulti: bool, profile: int): (State, Outcome)
  {
    if uid !in s.users then (s, Refused)
    else if what != MultiLogin && uid == requester then (s, Refused)
    else
      var u := s.users[uid].(profile := profile);
      match what
      case Superuser => (SetUser(s, uid, u.(superuser := !u.superuser)).(store := s.store - {Cached(uid)}), Done)
      case Staff => (SetUser(s, uid, u.(staff := !u.staff)).(store := s.store - {Cached(uid)}), Done)
      case Status => (SetUser(s, uid, u.(enabled := !u.enabled)).(store := s.store - {Cached(uid)}), Done)
      case MultiLogin =>
        var multi := !requesterMulti;
        (SetUser(s, uid, u.(multi := multi))
           .(store := (if multi then s.store else Without(s.store, AccessKeys, uid, {Access(uid, requesterSid)}))
                      - {Cached(uid)}), Done)
  }

  /** Deletes three keys; two of them are bare prefixes. `valid` tells whether the new password may be used. */
  function ResetPassword(s: State, uid: nat, valid: bool, profile: int): (State, Outcome) {
    if uid !in s.users || !valid then (s, Refused)
    else (SetUser(s, uid, s.users[uid].(profile := profile)).(store := s.store - {Cached(uid)}), Done)
  }

  function UpdatePassword(s: State, uid: nat, verified: bool, profile: int): (State, Outcome) {
    if uid !in s.users || !verified then (s, Refused)
    else
      (SetUser(s, uid, s.users[uid].(profile := profile))
         .(store := Without(Without(Without(s.store, AccessKeys, uid, {}), RefreshKeys, uid, {}), CachedKeys, uid, {})),
       Done)
  }

  /** `update_nickname`, `update_avatar`, `update_email`; only the last one asks for a captcha. */
  function UpdateProfile(s: State, uid: nat, captcha: bool, profile: int): (State, Outcome) {
    if !captcha then (s, Refused)
    else
      var t := if uid in s.users then SetUser(s, uid, s.users[uid].(profile := profile)) else s;
      (t.(store := s.store - {Cached(uid)}), Done)
  }

  /** The cached entry of the deleted user stays behind. */
  function DeleteUser(s: State, uid: nat): (State, Outcome) {
    if uid !in s.users then (s, Refused)
    else
      (s.(users := s.users - {uid},
          userRoles := (set p | p in s.userRoles && p.0 != uid),
          store := Without(Without(s.store, AccessKeys, uid, {}), RefreshKeys, uid, {})), Done)
  }

  function CreateRole(s: State, rid: nat, role: Role): (State, Outcome) {
    if rid in s.takenRoles || RoleNamed(s.roles, role.name) then (s, Refused)
    else (s.(roles := s.roles[rid := role], takenRoles := s.takenRoles + {rid}), Done)
  }

  /** The cached entries of all users that the user_role table links to one of these roles. */
  function CacheOfRoles(s: State, rids: set<nat>): set<Key> {
    set p | p in s.userRoles && p.1 in rids :: Cached(p.0)
  }

  function UpdateRole(s: State, rid: nat, role: Role): (State, Outcome) {
    if rid !in s.roles then (s, Refused)
    else if role.name != s.roles[rid].name && RoleNamed(s.roles, role.name) then (s, Refused)
    else (s.(roles := s.roles[rid := role], store := s.store - CacheOfRoles(s, {rid})), Done)
  }

  /** The user_role rows stay, so they still tell whose entries to clear. */
  function DeleteRoles(s: State, rids: set<nat>): (State, Outcome) {
    (s.(roles := s.roles - rids, store := s.store - CacheOfRoles(s, rids)), Done)
  }

  function Expire(s: State, keys: set<Key>): (State, Outcome) {
    (s.(store := s.store - keys), Done)
  }

  // ---------------------------------------------------------------- runs

  datatype Action =
    | DoLogin(uid: nat, verified: bool, sid: Sid, now: int, profile: int)
    | DoSwaggerLogin(uid: nat, verified: bool, sid: Sid, now: int, profile: int)
    | DoOAuth2Login(uid: nat, sid: Sid, now: int, profile: int)
    | DoOAuth2Register(uid: nat, name: string, suffixes: seq<string>, first: nat, sid: Sid, now: int, profile: int)
    | DoRefresh(token: Token, sid: Sid, now: int)
    | DoLogout(uid: nat, sid: Sid, cookie: bool)
    | DoRevoke(uid: nat, sid: Sid)
    | DoAuthenticate(token: Token, now: int)
    | DoCreateUser(uid: nat, name: string, password: bool, profile: int, roleIds: set<nat>)
    | DoUpdateUser(uid: nat, name: string, profile: int, roleIds: set<nat>)
    | DoUpdatePermission(uid: nat, what: Permission, requester: nat, requesterSid: Sid, requesterMulti: bool,
                         profile: int)
    | DoResetPassword(uid: nat, valid: bool, profile: int)
    | DoUpdatePassword(uid: nat, verified: bool, profile: int)
    | DoUpdateProfile(uid: nat, captcha: bool, profile: int)
    | DoDeleteUser(uid: nat)
    | DoCreateRole(rid: nat, role: Role)
    | DoUpdateRole(rid: nat, role: Role)
    | DoDeleteRoles(rids: set<nat>)
    | DoExpire(keys: set<Key>)

  function Next(s: State, a: Action): (State, Outcome) {
    match a
    case DoLogin(uid, verified, sid, now, profile) => Login(s, uid, verified, sid, now, profile)
    case DoSwaggerLogin(uid, verified, sid, now, profile) => SwaggerLogin(s, uid, verified, sid, now, profile)
    case DoOAuth2Login(uid, sid, now, profile) => OAuth2Login(s, uid, sid, now, profile)
    case DoOAuth2Register(uid, name, suffixes, role, sid, now, profile) =>
      OAuth2Register(s, uid, name, suffixes, role, sid, now, profile)
    case DoRefresh(token, sid, now) => Refreshed(s, token, sid, now)
    case DoLogout(uid, sid, cookie) => Logout(s, uid, sid, cookie)
    case DoRevoke(uid, sid) => Revoke(s, uid, sid)
    case DoAuthenticate(token, now) => Authenticate(s, token, now)
    case DoCreateUser(uid, name, password, profile, roleIds) =>
      CreateUser(s, uid, name, password, profile, roleIds)
    case DoUpdateUser(uid, name, profile, roleIds) => UpdateUser(s, uid, name, profile, roleIds)
    case DoUpdatePermission(uid, what, requester, requesterSid, requesterMulti, profile) =>
      UpdatePermission(s, uid, what, requester, requesterSid, requesterMulti, profile)
    case DoResetPassword(uid, valid, profile) => ResetPassword(s, uid, valid, profile)
    case DoUpdatePassword(uid, verified, profile) => UpdatePassword(s, uid, verified, profile)
    case DoUpdateProfile(uid, captcha, profile) => UpdateProfile(s, uid, captcha, profile)
    case DoDeleteUser(uid) => DeleteUser(s, uid)
    case DoCreateRole(rid, role) => CreateRole(s, rid, role)
    case DoUpdateRole(rid, role) => UpdateRole(s, rid, role)
    case DoDeleteRoles(rids) => DeleteRoles(s, rids)
    case DoExpire(keys) => Expire(s, keys)
  }

  /** Any database, with nothing in Redis yet. */
  predicate Initial(s: State) {
    Ids(s) && s.store == map[]
  }

  function Exec(start: State, run: seq<Action>): State {
    if run == [] then start else Next(Exec(start, run[..|run| - 1]), run[|run| - 1]).0
  }

  // ---------------------------------------------------------------- invariants

  predicate Ids(s: State) {
    && s.users.Keys <= s.takenUsers
    && s.roles.Keys <= s.takenRoles
    && (forall p :: p in s.userRoles ==> p.0 in s.takenUsers && p.1 in s.takenRoles)
  }

  /** Every token in the store belongs to an existing user and a session that was opened. */
  predicate EntryGood(s: State, k: Key) {
    k in s.store ==>
      match k
      case Access(uid, sid) =>
        uid in s.users && sid in s.takenSids
        && s.store[k].TokenValue? && s.store[k].token.uid == uid && s.store[k].token.sid == sid
      case Refresh(uid, sid) =>
        uid in s.users && sid in s.takenSids
        && s.store[k].TokenValue? && s.store[k].token.uid == uid && s.store[k].token.sid == sid
      case Extra(uid, sid) => sid in s.takenSids
      case Cached(uid) => uid in s.takenUsers
  }

  predicate StoreGood(s: State) {
    forall k :: k in s.store ==> EntryGood(s, k)
  }

  /** The cached entry of an existing user is absent or is the user's current view, and lets the user through. */
  predicate CoherentAt(s: State, uid: nat) {
    uid in s.users && Cached(uid) in s.store ==>
      s.store[Cached(uid)] == ViewValue(ViewOf(s, uid)) && Admissible(ViewOf(s, uid))
  }

  predicate Coherent(s: State) {
    forall uid :: uid in s.users ==> CoherentAt(s, uid)
  }

  predicate SingleAt(s: State, uid: nat) {
    uid in s.users && !s.users[uid].multi ==>
      forall k, l :: k in s.store && l in s.store && k.Access? && l.Access? && k.uid == uid && l.uid == uid ==> k == l
  }

  predicate Single(s: State) {
    forall uid :: uid in s.users ==> SingleAt(s, uid)
  }

  predicate Inv(s: State) {
    Ids(s) && StoreGood(s) && Coherent(s) && Single(s)
  }

  // ---------------------------------------------------------------- every step keeps them

  lemma HitsSelf(uid: nat)
    ensures Hits(uid, uid)
  {
  }

  predicate Shrinks(old_: map<Key, Value>, new_: map<Key, Value>) {
    forall k :: k in new_ ==> k in old_ && new_[k] == old_[k]
  }

  /** Steps that only take keys away, and clear the entries of the users whose view they change. */
  lemma ShrinkingStep(s: State, t: State)
    requires Inv(s) && Ids(t) && Shrinks(s.store, t.store) && t.takenSids == s.takenSids && s.takenUsers <= t.takenUsers
    requires forall uid :: uid in t.users ==>
      if uid in s.users
      then (Cached(uid) in t.store ==> ViewOf(t, uid) == ViewOf(s, uid))
           && (t.users[uid].multi == s.users[uid].multi || SingleAt(t, uid))
      else uid !in s.takenUsers
    requires forall k :: k in t.store && (k.Access? || k.Refresh?) ==> k.uid in t.users
    ensures Inv(t)
  {
    forall k | k in t.store ensures EntryGood(t, k) {
      assert EntryGood(s, k);
    }
    forall uid | uid in t.users ensures CoherentAt(t, uid) && SingleAt(t, uid) {
      if uid in s.users {
        assert CoherentAt(s, uid) && SingleAt(s, uid);
      } else {
        forall k | k in t.store ensures k.Extra? || k.uid != uid {
          assert EntryGood(s, k);
        }
      }
    }
  }

  /** Opening a session under a new uuid. */
  lemma AccessStep(s: State, uid: nat, sid: Sid, now: int)
    requires Inv(s) && uid in s.users && sid !in s.takenSids
    ensures Inv(s.(store := WithAccess(s.store, uid, sid, now, s.users[uid].multi), takenSids := s.takenSids + {sid}))
  {
    var t := s.(store := WithAccess(s.store, uid, sid, now, s.users[uid].multi), takenSids := s.takenSids + {sid});
    HitsSelf(uid);
    forall k | k in t.store ensures EntryGood(t, k) {
      assert k in s.store ==> EntryGood(s, k);
    }
    forall u | u in t.users ensures CoherentAt(t, u) && SingleAt(t, u) {
      assert CoherentAt(s, u) && SingleAt(s, u);
      assert ViewOf(t, u) == ViewOf(s, u);
    }
  }

  lemma OpenStep(s: State, uid: nat, sid: Sid, now: int)
    requires Inv(s) && uid in s.users && sid !in s.takenSids
    ensures Inv(OpenSession(s, uid, sid, now))
    ensures Cached(uid) !in OpenSession(s, uid, sid, now).store
  {
    AccessStep(s, uid, sid, now);
    var m := s.(store := WithAccess(s.store, uid, sid, now, s.users[uid].multi), takenSids := s.takenSids + {sid});
    var t := OpenSession(s, uid, sid, now);
    forall k | k in t.store ensures EntryGood(t, k) {
      assert k in m.store ==> EntryGood(m, k);
    }
    forall u | u in t.users ensures CoherentAt(t, u) && SingleAt(t, u) {
      assert CoherentAt(m, u) && SingleAt(m, u);
      assert ViewOf(t, u) == ViewOf(m, u);
    }
  }

  /** Writing a user's row while its cached entry is cleared, or is not there. */
  lemma RowStep(s: State, uid: nat, user: User)
    requires Inv(s) && uid in s.users && user.multi == s.users[uid].multi
    ensures Inv(SetUser(s, uid, user).(store := s.store - {Cached(uid)}))
    ensures Cached(uid) !in s.store ==> Inv(SetUser(s, uid, user))
  {
    var t := SetUser(s, uid, user).(store := s.store - {Cached(uid)});
    forall k | k in t.store ensures k.Access? || k.Refresh? ==> k.uid in t.users {
      assert EntryGood(s, k);
    }
    ShrinkingStep(s, t);
    if Cached(uid) !in s.store {
      assert s.store - {Cached(uid)} == s.store;
    }
  }

  lemma BareAccess(store: map<Key, Value>, uid: nat, sid: Sid, now: int, multi: bool)
    ensures WithAccess(store - {Cached(uid)}, uid, sid, now, multi) == WithAccess(store, uid, sid, now, multi)
  {
  }

  lemma LoginStep(s: State, uid: nat, verified: bool, sid: Sid, now: int, profile: int)
    requires Inv(s)
    ensures Inv(Login(s, uid, verified, sid, now, profile).0)
  {
    if uid in s.users && sid !in s.takenSids {
      var user := s.users[uid].(profile := profile);
      RowStep(s, uid, user);
      OpenStep(SetUser(s, uid, user).(store := s.store - {Cached(uid)}), uid, sid, now);
      BareAccess(s.store, uid, sid, now, user.multi);
    }
  }

  lemma SwaggerStep(s: State, uid: nat, verified: bool, sid: Sid, now: int, profile: int)
    requires Inv(s)
    ensures Inv(SwaggerLogin(s, uid, verified, sid, now, profile).0)
  {
    if uid in s.users && sid !in s.takenSids {
      var user := s.users[uid].(profile := profile);
      RowStep(s, uid, user);
      AccessStep(SetUser(s, uid, user).(store := s.store - {Cached(uid)}), uid, sid, now);
      BareAccess(s.store, uid, sid, now, user.multi);
    }
  }

  lemma OAuth2Step(s: State, uid: nat, sid: Sid, now: int, profile: int)
    requires Inv(s)
    ensures Inv(OAuth2Login(s, uid, sid, now, profile).0)
  {
    if uid in s.users && sid !in s.takenSids {
      OpenStep(s, uid, sid, now);
      RowStep(OpenSession(s, uid, sid, now), uid, s.users[uid].(profile := profile));
    }
  }

  lemma AddUserStep(s: State, uid: nat, user: User, roleIds: set<nat>)
    requires Inv(s) && uid !in s.takenUsers
    ensures Inv(AddUser(s, uid, user, roleIds))
  {
    var t := AddUser(s, uid, user, roleIds);
    forall u | u in s.users ensures ViewOf(t, u) == ViewOf(s, u) {
    }
    forall k | k in t.store && (k.Access? || k.Refresh?) ensures k.uid in t.users {
      assert EntryGood(s, k);
    }
    ShrinkingStep(s, t);
  }

  lemma RegisterStep(s: State, a: Action)
    requires Inv(s) && a.DoOAuth2Register?
    ensures Inv(Next(s, a).0)
  {
    var free := FreeName(s.users, a.name, a.suffixes);
    if a.uid !in s.takenUsers && free.Some? {
      var user := OAuth2User(free.value, a.profile);
      AddUserStep(s, a.uid, user, {a.first});
      OAuth2Step(AddUser(s, a.uid, user, {a.first}), a.uid, a.sid, a.now, a.profile);
    }
  }

  lemma RefreshStep(s: State, token: Token, sid: Sid, now: int)
    requires Inv(s)
    ensures Inv(Refreshed(s, token, sid, now).0)
  {
    var t := s.(store := s.store - {Refresh(token.uid, token.sid), Access(token.uid, token.sid)});
    StoreOnly(s, t);
    if token.uid in s.users && sid !in s.takenSids {
      OpenStep(t, token.uid, sid, now);
    }
  }

  /** Taking any keys away from the store is harmless. */
  lemma StoreOnly(s: State, t: State)
    requires Inv(s) && t == s.(store := t.store) && Shrinks(s.store, t.store)
    ensures Inv(t)
  {
    forall u | u in s.users ensures ViewOf(t, u) == ViewOf(s, u) {
    }
    forall k | k in t.store && (k.Access? || k.Refresh?) ensures k.uid in t.users {
      assert EntryGood(s, k);
    }
    ShrinkingStep(s, t);
  }

  lemma AuthenticateStep(s: State, token: Token, now: int)
    requires Inv(s)
    ensures Inv(Authenticate(s, token, now).0)
  {
    var t := Authenticate(s, token, now).0;
    if t != s {
      forall k | k in t.store ensures EntryGood(t, k) {
        assert k in s.store ==> EntryGood(s, k);
      }
      forall u | u in t.users ensures CoherentAt(t, u) && SingleAt(t, u) {
        assert CoherentAt(s, u) && SingleAt(s, u);
        assert ViewOf(t, u) == ViewOf(s, u);
      }
    }
  }

  lemma UpdateUserStep(s: State, uid: nat, name: string, profile: int, roleIds: set<nat>)
    requires Inv(s)
    ensures Inv(UpdateUser(s, uid, name, profile, roleIds).0)
  {
    var t := UpdateUser(s, uid, name, profile, roleIds).0;
    forall u | u in t.users && u != uid ensures ViewOf(t, u) == ViewOf(s, u) {
    }
    forall k | k in t.store && (k.Access? || k.Refresh?) ensures k.uid in t.users {
      assert EntryGood(s, k);
    }
    if t != s {
      ShrinkingStep(s, t);
    }
  }

  lemma DeleteUserStep(s: State, uid: nat)
    requires Inv(s)
    ensures Inv(DeleteUser(s, uid).0)
  {
    var t := DeleteUser(s, uid).0;
    HitsSelf(uid);
    forall u | u in t.users ensures ViewOf(t, u) == ViewOf(s, u) {
    }
    forall k | k in t.store && (k.Access? || k.Refresh?) ensures k.uid in t.users {
      assert EntryGood(s, k);
    }
    ShrinkingStep(s, t);
  }

  lemma UpdatePasswordStep(s: State, uid: nat, verified: bool, profile: int)
    requires Inv(s)
    ensures Inv(UpdatePassword(s, uid, verified, profile).0)
  {
    if uid in s.users && verified {
      var user := s.users[uid].(profile := profile);
      RowStep(s, uid, user);
      HitsSelf(uid);
      StoreOnly(SetUser(s, uid, user).(store := s.store - {Cached(uid)}), UpdatePassword(s, uid, verified, profile).0);
    }
  }

  lemma UpdateProfileStep(s: State, uid: nat, passed: bool, profile: int)
    requires Inv(s)
    ensures Inv(UpdateProfile(s, uid, passed, profile).0)
    ensures Inv(ResetPassword(s, uid, passed, profile).0)
  {
    if uid in s.users {
      RowStep(s, uid, s.users[uid].(profile := profile));
    } else {
      StoreOnly(s, UpdateProfile(s, uid, passed, profile).0);
    }
  }

  /** Switching multi-login off leaves the target one session, the requester's, if that is its own. */
  lemma MultiLoginStep(s: State, uid: nat, sid: Sid, multi: bool, profile: int)
    requires Inv(s) && uid in s.users
    ensures Inv(SetUser(s, uid, s.users[uid].(profile := profile, multi := multi))
                  .(store := (if multi then s.store else Without(s.store, AccessKeys, uid, {Access(uid, sid)}))
                             - {Cached(uid)}))
  {
    var t := SetUser(s, uid, s.users[uid].(profile := profile, multi := multi))
               .(store := (if multi then s.store else Without(s.store, AccessKeys, uid, {Access(uid, sid)}))
                          - {Cached(uid)});
    HitsSelf(uid);
    forall u | u in t.users && u != uid ensures ViewOf(t, u) == ViewOf(s, u) {
    }
    forall k | k in t.store && (k.Access? || k.Refresh?) ensures k.uid in t.users {
      assert EntryGood(s, k);
    }
    ShrinkingStep(s, t);
  }

  lemma PermissionStep(s: State, a: Action)
    requires Inv(s) && a.DoUpdatePermission?
    ensures Inv(Next(s, a).0)
  {
    if a.uid in s.users {
      var u := s.users[a.uid].(profile := a.profile);
      match a.what
      case Superuser => RowStep(s, a.uid, u.(superuser := !u.superuser));
      case Staff => RowStep(s, a.uid, u.(staff := !u.staff));
      case Status => RowStep(s, a.uid, u.(enabled := !u.enabled));
      case MultiLogin => MultiLoginStep(s, a.uid, a.requesterSid, !a.requesterMulti, a.profile);
    }
  }

  lemma RoleStep(s: State, a: Action)
    requires Inv(s) && (a.DoCreateRole? || a.DoUpdateRole? || a.DoDeleteRoles?)
    ensures Inv(Next(s, a).0)
  {
    var t := Next(s, a).0;
    forall u | u in t.users && Cached(u) in t.store ensures ViewOf(t, u) == ViewOf(s, u) {
      assert a.DoUpdateRole? ==> (u, a.rid) !in s.userRoles || t == s;
      assert a.DoDeleteRoles? ==> forall r :: r in a.rids ==> (u, r) !in s.userRoles;
    }
    forall k | k in t.store && (k.Access? || k.Refresh?) ensures k.uid in t.users {
      assert EntryGood(s, k);
    }
    ShrinkingStep(s, t);
  }

  predicate ChangesRows(a: Action) {
    || a.DoCreateUser? || a.DoUpdateUser? || a.DoUpdatePermission? || a.DoResetPassword? || a.DoUpdatePassword?
    || a.DoUpdateProfile? || a.DoDeleteUser? || a.DoCreateRole? || a.DoUpdateRole? || a.DoDeleteRoles?
  }

  lemma SessionStepKeepsInv(s: State, a: Action)
    requires Inv(s) && !ChangesRows(a)
    ensures Inv(Next(s, a).0)
  {
    match a
    case DoLogin(uid, verified, sid, now, profile) => LoginStep(s, uid, verified, sid, now, profile);
    case DoSwaggerLogin(uid, verified, sid, now, profile) => SwaggerStep(s, uid, verified, sid, now, profile);
    case DoOAuth2Login(uid, sid, now, profile) => OAuth2Step(s, uid, sid, now, profile);
    case DoOAuth2Register(_, _, _, _, _, _, _) => RegisterStep(s, a);
    case DoRefresh(token, sid, now) => RefreshStep(s, token, sid, now);
    case DoAuthenticate(token, now) => AuthenticateStep(s, token, now);
    case DoLogout(_, _, _) => StoreOnly(s, Next(s, a).0);
    case DoRevoke(_, _) => StoreOnly(s, Next(s, a).0);
    case DoExpire(_) => StoreOnly(s, Next(s, a).0);
  }

  lemma RowStepKeepsInv(s: State, a: Action)
    requires Inv(s) && ChangesRows(a)
    ensures Inv(Next(s, a).0)
  {
    match a
    case DoCreateUser(uid, name, _, profile, roleIds) =>
      if uid !in s.takenUsers {
        AddUserStep(s, uid, User(name, true, false, false, false, profile), roleIds);
      }
    case DoUpdateUser(uid, name, profile, roleIds) => UpdateUserStep(s, uid, name, profile, roleIds);
    case DoUpdatePermission(_, _, _, _, _, _) => PermissionStep(s, a);
    case DoResetPassword(uid, valid, profile) => UpdateProfileStep(s, uid, valid, profile);
    case DoUpdatePassword(uid, verified, profile) => UpdatePasswordStep(s, uid, verified, profile);
    case DoUpdateProfile(uid, captcha, profile) => UpdateProfileStep(s, uid, captcha, profile);
    case DoDeleteUser(uid) => DeleteUserStep(s, uid);
    case DoCreateRole(_, _) => RoleStep(s, a);
    case DoUpdateRole(_, _) => RoleStep(s, a);
    case DoDeleteRoles(_) => RoleStep(s, a);
  }

  lemma StepKeepsInv(s: State, a: Action)
    requires Inv(s)
    ensures Inv(Next(s, a).0)
  {
    if ChangesRows(a) {
      RowStepKeepsInv(s, a);
    } else {
      SessionStepKeepsInv(s, a);
    }
  }

  lemma {:induction false} ReachableInv(start: State, run: seq<Action>)
    requires Initial(start)
    ensures Inv(Exec(start, run))
  {
    if run != [] {
      ReachableInv(start, run[..|run| - 1]);
      StepKeepsInv(Exec(start, run[..|run| - 1]), run[|run| - 1]);
    }
  }

  // ---------------------------------------------------------------- what the invariants give

  /**
   * A successful authentication means, in every reachable state, that the user exists, is enabled, does not
   * have all its roles disabled, and that the view handed out is the current one.
   */
  lemma AuthenticationIsCurrent(start: State, run: seq<Action>, token: Token, now: int)
    requires Initial(start)
    requires Authenticate(Exec(start, run), token, now).1.Accepted?
    ensures var s := Exec(start, run);
      && token.uid in s.users && s.users[token.uid].enabled
      && Authenticate(s, token, now).1.view == ViewOf(s, token.uid)
      && ((forall r :: r in s.roles && (token.uid, r) in s.userRoles ==> !s.roles[r].enabled) ==>
            forall r :: r in s.roles ==> (token.uid, r) !in s.userRoles)
  {
    ReachableInv(start, run);
    var s := Exec(start, run);
    assert EntryGood(s, Access(token.uid, token.sid));
    assert CoherentAt(s, token.uid);
    var v := ViewOf(s, token.uid);
    assert Admissible(v);
    assert forall r :: r in v.roles <==> r in s.roles && (token.uid, r) in s.userRoles;
  }

  /** A user whose multi-login flag is off has at most one live access token, in every reachable state. */
  lemma AtMostOneSession(start: State, run: seq<Action>, uid: nat, sid1: Sid, sid2: Sid)
    requires Initial(start)
    requires var s := Exec(start, run);
      uid in s.users && !s.users[uid].multi && Access(uid, sid1) in s.store && Access(uid, sid2) in s.store
    ensures sid1 == sid2
  {
    ReachableInv(start, run);
    var s := Exec(start, run);
    assert SingleAt(s, uid);
    assert Access(uid, sid1) == Access(uid, sid2);
  }

  // ---------------------------------------------------------------- ended sessions stay ended

  /** A session key of a session that was opened once and is not in the store now. */
  predicate Ended(s: State, k: Key) {
    (k.Access? || k.Refresh?) && k.sid in s.takenSids && k !in s.store
  }

  lemma EndedStep(s: State, a: Action, k: Key)
    requires Ended(s, k)
    ensures Ended(Next(s, a).0, k)
  {
  }

  lemma {:induction false} EndedForever(start: State, run: seq<Action>, i: nat, k: Key)
    requires i <= |run| && Ended(Exec(start, run[..i]), k)
    ensures Ended(Exec(start, run), k)
    decreases |run|
  {
    if i == |run| {
      assert run[..i] == run;
    } else {
      var front := run[..|run| - 1];
      assert front[..i] == run[..i];
      EndedForever(start, front, i, k);
      EndedStep(Exec(start, front), run[|run| - 1], k);
    }
  }

  /** The user's sign-on or removal takes the access tokens of all ids that start with the same digits. */
  predicate SweepsFor(s: State, u: nat, uid: nat) {
    u in s.users && !s.users[u].multi && Hits(u, uid)
  }

  /** The steps that end the session (uid, sid). */
  predicate Ends(s: State, a: Action, uid: nat, sid: Sid) {
    match a
    case DoLogin(u, _, _, _, _) => Next(s, a).1 != Refused && SweepsFor(s, u, uid)
    case DoSwaggerLogin(u, _, _, _, _) => Next(s, a).1 != Refused && SweepsFor(s, u, uid)
    case DoOAuth2Login(u, _, _, _) => Next(s, a).1 != Refused && SweepsFor(s, u, uid)
    case DoOAuth2Register(u, _, _, _, _, _, _) => Next(s, a).1 != Refused && Hits(u, uid)
    case DoRefresh(token, _, _) =>
      Next(s, a).1 != Refused && ((token.uid == uid && token.sid == sid) || SweepsFor(s, token.uid, uid))
    case DoLogout(u, i, _) => u == uid && i == sid
    case DoRevoke(u, i) => u == uid && i == sid
    case DoUpdatePermission(u, what, _, i, multi, _) =>
      u in s.users && what == MultiLogin && multi && Hits(u, uid) && !(u == uid && i == sid)
    case DoUpdatePassword(u, verified, _) => u in s.users && verified && Hits(u, uid)
    case DoDeleteUser(u) => u in s.users && Hits(u, uid)
    case DoExpire(keys) => Access(uid, sid) in keys
    case _ => false
  }

  predicate SignsOn(a: Action) {
    a.DoLogin? || a.DoSwaggerLogin? || a.DoOAuth2Login? || a.DoOAuth2Register?
  }

  lemma SignOnEnds(s: State, a: Action, uid: nat, sid: Sid)
    requires Inv(s) && SignsOn(a) && !a.DoOAuth2Register? && Access(uid, sid) in s.store
    ensures Ends(s, a, uid, sid) <==> Access(uid, sid) !in Next(s, a).0.store
  {
    assert EntryGood(s, Access(uid, sid));
  }

  lemma RegisterEnds(s: State, a: Action, uid: nat, sid: Sid)
    requires Inv(s) && a.DoOAuth2Register? && Access(uid, sid) in s.store
    ensures Ends(s, a, uid, sid) <==> Access(uid, sid) !in Next(s, a).0.store
  {
    assert EntryGood(s, Access(uid, sid));
  }

  lemma RefreshEnds(s: State, a: Action, uid: nat, sid: Sid)
    requires Inv(s) && a.DoRefresh? && Access(uid, sid) in s.store
    ensures Ends(s, a, uid, sid) <==> Access(uid, sid) !in Next(s, a).0.store
  {
    assert EntryGood(s, Access(uid, sid));
  }

  lemma OtherEnds(s: State, a: Action, uid: nat, sid: Sid)
    requires Inv(s) && !SignsOn(a) && !a.DoRefresh? && Access(uid, sid) in s.store
    ensures Ends(s, a, uid, sid) <==> Access(uid, sid) !in Next(s, a).0.store
  {
  }

  /** Exactly these steps do: for a live access token, one of them takes place if and only if it is gone after. */
  lemma EndsExactly(s: State, a: Action, uid: nat, sid: Sid)
    requires Inv(s) && Access(uid, sid) in s.store
    ensures Ends(s, a, uid, sid) <==> Access(uid, sid) !in Next(s, a).0.store
    ensures Ends(s, a, uid, sid) ==> Ended(Next(s, a).0, Access(uid, sid))
  {
    assert EntryGood(s, Access(uid, sid));
    if a.DoOAuth2Register? {
      RegisterEnds(s, a, uid, sid);
    } else if SignsOn(a) {
      SignOnEnds(s, a, uid, sid);
    } else if a.DoRefresh? {
      RefreshEnds(s, a, uid, sid);
    } else {
      OtherEnds(s, a, uid, sid);
    }
    TakenStay(s, a);
  }

  lemma TakenStay(s: State, a: Action)
    ensures s.takenSids <= Next(s, a).0.takenSids
  {
  }

  /**
   * Once a step has ended a live session (logout, revocation, a successful refresh, a password change, a new
   * single login and the others), its access token is never accepted again.
   */
  lemma EndedTokenNeverAccepted(start: State, run: seq<Action>, i: nat, uid: nat, sid: Sid, token: Token, now: int)
    requires Initial(start) && i < |run|
    requires Access(uid, sid) in Exec(start, run[..i]).store && Ends(Exec(start, run[..i]), run[i], uid, sid)
    requires token.uid == uid && token.sid == sid
    ensures Authenticate(Exec(start, run), token, now) == (Exec(start, run), Refused)
  {
    ReachableInv(start, run[..i]);
    assert run[..i + 1][..i] == run[..i];
    EndsExactly(Exec(start, run[..i]), run[i], uid, sid);
    EndedForever(start, run, i + 1, Access(uid, sid));
  }

  /**
   * The steps that end the refresh token of the session (uid, sid). Revocation and the multi-login switch are
   * not among them, nor is a logout without the cookie.
   */
  predicate EndsRefresh(s: State, a: Action, uid: nat, sid: Sid) {
    match a
    case DoLogin(u, _, _, _, _) => Next(s, a).1 != Refused && SweepsFor(s, u, uid)
    case DoOAuth2Login(u, _, _, _) => Next(s, a).1 != Refused && SweepsFor(s, u, uid)
    case DoOAuth2Register(u, _, _, _, _, _, _) => Next(s, a).1 != Refused && Hits(u, uid)
    case DoRefresh(token, _, _) =>
      Next(s, a).1 != Refused && ((token.uid == uid && token.sid == sid) || SweepsFor(s, token.uid, uid))
    case DoLogout(u, i, cookie) => u == uid && i == sid && cookie
    case DoUpdatePassword(u, verified, _) => u in s.users && verified && Hits(u, uid)
    case DoDeleteUser(u) => u in s.users && Hits(u, uid)
    case DoExpire(keys) => Refresh(uid, sid) in keys
    case _ => false
  }

  lemma SignOnEndsRefresh(s: State, a: Action, uid: nat, sid: Sid)
    requires Inv(s) && SignsOn(a) && !a.DoOAuth2Register? && Refresh(uid, sid) in s.store
    ensures EndsRefresh(s, a, uid, sid) <==> Refresh(uid, sid) !in Next(s, a).0.store
  {
    assert EntryGood(s, Refresh(uid, sid));
  }

  lemma RegisterEndsRefresh(s: State, a: Action, uid: nat, sid: Sid)
    requires Inv(s) && a.DoOAuth2Register? && Refresh(uid, sid) in s.store
    ensures EndsRefresh(s, a, uid, sid) <==> Refresh(uid, sid) !in Next(s, a).0.store
  {
    assert EntryGood(s, Refresh(uid, sid));
  }

  lemma RefreshEndsRefresh(s: State, a: Action, uid: nat, sid: Sid)
    requires Inv(s) && a.DoRefresh? && Refresh(uid, sid) in s.store
    ensures EndsRefresh(s, a, uid, sid) <==> Refresh(uid, sid) !in Next(s, a).0.store
  {
    assert EntryGood(s, Refresh(uid, sid));
  }

  lemma OtherEndsRefresh(s: State, a: Action, uid: nat, sid: Sid)
    requires Inv(s) && !SignsOn(a) && !a.DoRefresh? && Refresh(uid, sid) in s.store
    ensures EndsRefresh(s, a, uid, sid) <==> Refresh(uid, sid) !in Next(s, a).0.store
  {
  }

  /** Exactly these steps do, as for access tokens. */
  lemma EndsRefreshExactly(s: State, a: Action, uid: nat, sid: Sid)
    requires Inv(s) && Refresh(uid, sid) in s.store
    ensures EndsRefresh(s, a, uid, sid) <==> Refresh(uid, sid) !in Next(s, a).0.store
    ensures EndsRefresh(s, a, uid, sid) ==> Ended(Next(s, a).0, Refresh(uid, sid))
  {
    assert EntryGood(s, Refresh(uid, sid));
    if a.DoOAuth2Register? {
      RegisterEndsRefresh(s, a, uid, sid);
    } else if SignsOn(a) {
      SignOnEndsRefresh(s, a, uid, sid);
    } else if a.DoRefresh? {
      RefreshEndsRefresh(s, a, uid, sid);
    } else {
      OtherEndsRefresh(s, a, uid, sid);
    }
    TakenStay(s, a);
  }

  /** Once a step has ended a refresh token, no token of that session opens a new one ever again. */
  lemma EndedRefreshNeverAccepted(start: State, run: seq<Action>, i: nat, uid: nat, sid: Sid, token: Token,
                                  newSid: Sid, now: int)
    requires Initial(start) && i < |run|
    requires Refresh(uid, sid) in Exec(start, run[..i]).store && EndsRefresh(Exec(start, run[..i]), run[i], uid, sid)
    requires token.uid == uid && token.sid == sid
    ensures Refreshed(Exec(start, run), token, newSid, now) == (Exec(start, run), Refused)
  {
    ReachableInv(start, run[..i]);
    assert run[..i + 1][..i] == run[..i];
    EndsRefreshExactly(Exec(start, run[..i]), run[i], uid, sid);
    EndedForever(start, run, i + 1, Refresh(uid, sid));
  }

  /** Over a whole run each refresh token is accepted at most once. */
  lemma RefreshAcceptedOnce(start: State, run: seq<Action>, i: nat, j: nat)
    requires Initial(start) && i < j < |run|
    requires run[i].DoRefresh? && run[j].DoRefresh? && run[i].token == run[j].token
    requires Next(Exec(start, run[..i]), run[i]).1.Renewed?
    ensures Next(Exec(start, run[..j]), run[j]).1 == Refused
  {
    var token := run[i].token;
    assert run[..j][..i] == run[..i];
    EndedRefreshNeverAccepted(start, run[..j], i, token.uid, token.sid, token, run[j].sid, run[j].now);
  }

  /**
   * Revocation of a live session takes its access token only: its refresh token opens a new session if and only
   * if it has not expired and the user is enabled, with single login as well.
   */
  lemma RevokeLeavesRefresh(s: State, uid: nat, sid: Sid, token: Token, newSid: Sid, now: int)
    requires Inv(s) && newSid !in s.takenSids && Access(uid, sid) in s.store
    requires Refresh(uid, sid) in s.store && s.store[Refresh(uid, sid)] == TokenValue(token)
    ensures uid in s.users && Access(uid, sid) !in Revoke(s, uid, sid).0.store
    ensures Refreshed(Revoke(s, uid, sid).0, token, newSid, now).1
         == if now <= token.expires && s.users[uid].enabled
            then Renewed(AccessToken(uid, newSid, now), RefreshToken(uid, newSid, now)) else Refused
  {
    assert EntryGood(s, Access(uid, sid)) && EntryGood(s, Refresh(uid, sid));
    assert SingleAt(s, uid);
    var t := Revoke(s, uid, sid).0;
    forall k | k in t.store && k.Access? && k.uid == uid ensures s.users[uid].multi {
      assert k in s.store && k != Access(uid, sid);
    }
  }

  // ---------------------------------------------------------------- whose sessions a password change ends

  /** A user's own password change ends the sessions of every user whose id starts with the same digits. */
  lemma UpdatePasswordEnds(s: State, uid: nat, profile: int, k: Key)
    requires uid in s.users && (k.Access? || k.Refresh?) && k in s.store
    ensures k in UpdatePassword(s, uid, true, profile).0.store <==> !Hits(uid, k.uid)
    ensures k.uid == uid ==> k !in UpdatePassword(s, uid, true, profile).0.store
  {
    HitsSelf(uid);
  }

  /** So when user 1 changes the password, the sessions of user 12 end, and those of user 21 do not. */
  lemma UserOneEndsTwelve(s: State, profile: int, sid: Sid)
    requires 1 in s.users && Access(12, sid) in s.store && Access(21, sid) in s.store
    ensures Access(12, sid) !in UpdatePassword(s, 1, true, profile).0.store
    ensures Access(21, sid) in UpdatePassword(s, 1, true, profile).0.store
  {
    OneHitsTwelve();
  }

  /** An administrator's password reset ends no session at all. */
  lemma ResetPasswordEndsNothing(s: State, uid: nat, valid: bool, profile: int, k: Key)
    requires k.Access? || k.Refresh?
    ensures k in ResetPassword(s, uid, valid, profile).0.store <==> k in s.store
    ensures PrefixText(AccessKeys, uid) != Text(k) && PrefixText(RefreshKeys, uid) != Text(k)
  {
    PrefixIsNoSessionKey(AccessKeys, uid, k);
    PrefixIsNoSessionKey(RefreshKeys, uid, k);
  }

  /**
   * Switching multi-login really switches the target's flag if and only if it equals the requester's flag.
   */
  lemma MultiLoginSwitchesIff(s: State, uid: nat, requester: nat, sid: Sid, requesterMulti: bool, profile: int)
    requires uid in s.users
    ensures var t := UpdatePermission(s, uid, MultiLogin, requester, sid, requesterMulti, profile).0;
      t.users[uid].multi != s.users[uid].multi <==> requesterMulti == s.users[uid].multi
  {
  }

  // ---------------------------------------------------------------- names

  predicate NamesUnique(s: State) {
    && (forall u, v :: u in s.users && v in s.users && s.users[u].name == s.users[v].name ==> u == v)
    && (forall q, r :: q in s.roles && r in s.roles && s.roles[q].name == s.roles[r].name ==> q == r)
  }

  lemma {:induction false} FreeNameIsFree(users: map<nat, User>, name: string, suffixes: seq<string>)
    ensures var free := FreeName(users, name, suffixes);
      free.Some? ==> !UserNamed(users, free.value) && name <= free.value
    decreases suffixes
  {
    if UserNamed(users, name) && suffixes != [] {
      FreeNameIsFree(users, name + "_" + suffixes[0], suffixes[1..]);
      assert name <= name + "_" + suffixes[0];
    }
  }

  /** Only this user's name may have changed, to one that nobody has, and only this role's. */
  lemma NamesKept(s: State, t: State, uid: nat, rid: nat)
    requires NamesUnique(s)
    requires forall u :: u in t.users && u != uid ==> u in s.users && t.users[u].name == s.users[u].name
    requires forall r :: r in t.roles && r != rid ==> r in s.roles && t.roles[r].name == s.roles[r].name
    requires uid in t.users ==> forall u :: u in s.users && u != uid ==> s.users[u].name != t.users[uid].name
    requires rid in t.roles ==> forall r :: r in s.roles && r != rid ==> s.roles[r].name != t.roles[rid].name
    ensures NamesUnique(t)
  {
  }

  /** The steps that leave every name as it is. */
  predicate Nameless(a: Action) {
    !a.DoOAuth2Register? && !a.DoCreateUser? && !a.DoUpdateUser? && !a.DoCreateRole? && !a.DoUpdateRole?
  }

  predicate SameNames(s: State, t: State) {
    && (forall u :: u in t.users ==> u in s.users && t.users[u].name == s.users[u].name)
    && (forall r :: r in t.roles ==> r in s.roles && t.roles[r].name == s.roles[r].name)
  }

  lemma SessionStepNames(s: State, a: Action)
    requires SignsOn(a) && !a.DoOAuth2Register?
    ensures SameNames(s, Next(s, a).0)
  {
  }

  lemma RowNames(s: State, t: State, uid: nat)
    requires uid in s.users && uid in t.users && t.users == s.users[uid := t.users[uid]] && t.roles == s.roles
    requires t.users[uid].name == s.users[uid].name
    ensures SameNames(s, t)
  {
  }

  lemma AdminStepNames(s: State, a: Action)
    requires a.DoUpdatePermission? || a.DoResetPassword? || a.DoUpdatePassword? || a.DoUpdateProfile?
    ensures SameNames(s, Next(s, a).0)
  {
    if Next(s, a).1 != Refused && a.uid in s.users {
      RowNames(s, Next(s, a).0, a.uid);
    }
  }

  lemma NamelessStep(s: State, a: Action)
    requires Nameless(a)
    ensures SameNames(s, Next(s, a).0)
  {
    if SignsOn(a) {
      SessionStepNames(s, a);
    } else if a.DoUpdatePermission? || a.DoResetPassword? || a.DoUpdatePassword? || a.DoUpdateProfile? {
      AdminStepNames(s, a);
    }
  }

  lemma RoleNamesKept(s: State, a: Action)
    requires NamesUnique(s) && (a.DoCreateRole? || a.DoUpdateRole?)
    ensures NamesUnique(Next(s, a).0)
  {
    NamesKept(s, Next(s, a).0, 0, a.rid);
  }

  lemma RegisterNamesKept(s: State, a: Action)
    requires NamesUnique(s) && a.DoOAuth2Register?
    ensures NamesUnique(Next(s, a).0)
  {
    FreeNameIsFree(s.users, a.name, a.suffixes);
    NamesKept(s, Next(s, a).0, a.uid, 0);
  }

  lemma UserNamesKept(s: State, a: Action)
    requires NamesUnique(s) && (a.DoCreateUser? || a.DoUpdateUser?)
    ensures NamesUnique(Next(s, a).0)
  {
    NamesKept(s, Next(s, a).0, a.uid, 0);
  }

  lemma StepKeepsNames(s: State, a: Action)
    requires NamesUnique(s)
    ensures NamesUnique(Next(s, a).0)
  {
    if Nameless(a) {
      NamelessStep(s, a);
    } else if a.DoCreateRole? || a.DoUpdateRole? {
      RoleNamesKept(s, a);
    } else if a.DoOAuth2Register? {
      RegisterNamesKept(s, a);
    } else {
      UserNamesKept(s, a);
    }
  }

  /** No two users, and no two roles, ever share a name. */
  lemma {:induction false} NamesStayUnique(start: State, run: seq<Action>)
    requires NamesUnique(start)
    ensures NamesUnique(Exec(start, run))
  {
    if run != [] {
      NamesStayUnique(start, run[..|run| - 1]);
      StepKeepsNames(Exec(start, run[..|run| - 1]), run[|run| - 1]);
    }
  }
}

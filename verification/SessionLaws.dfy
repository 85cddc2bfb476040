/**
 * What each service call does to sessions, users, links, roles and cached users, told key by key and row by row,
 * from the call and the state before it.
 */
module SessionLaws {
  import opened Options
  import opened RedisKeys
  import opened Sessions

  // ---------------------------------------------------------------- when a session begins

  /** The name with the first k suffixes. */
  function Candidate(name: string, suffixes: seq<string>, k: nat): string
    requires k <= |suffixes|
  {
    if k == 0 then name else Candidate(name, suffixes, k - 1) + "_" + suffixes[k - 1]
  }

  predicate Unused(users: map<nat, User>, name: string) {
    forall u :: u in users ==> users[u].name != name
  }

  predicate SomeFree(users: map<nat, User>, name: string, suffixes: seq<string>) {
    exists k :: 0 <= k <= |suffixes| && Unused(users, Candidate(name, suffixes, k))
  }

  lemma {:induction false} CandidateShift(name: string, suffixes: seq<string>, k: nat)
    requires suffixes != [] && k < |suffixes|
    ensures Candidate(name + "_" + suffixes[0], suffixes[1..], k) == Candidate(name, suffixes, k + 1)
  {
    if k > 0 {
      CandidateShift(name, suffixes, k - 1);
    }
  }

  /** With k suffixes the name is free, and with fewer it is not. */
  predicate FirstFree(users: map<nat, User>, name: string, suffixes: seq<string>, k: nat) {
    && k <= |suffixes| && Unused(users, Candidate(name, suffixes, k))
    && forall j :: 0 <= j < k ==> !Unused(users, Candidate(name, suffixes, j))
  }

  lemma FirstFreeShift(users: map<nat, User>, name: string, suffixes: seq<string>, k: nat)
    requires suffixes != [] && !Unused(users, name)
    requires FirstFree(users, name + "_" + suffixes[0], suffixes[1..], k)
    ensures FirstFree(users, name, suffixes, k + 1)
    ensures Candidate(name, suffixes, k + 1) == Candidate(name + "_" + suffixes[0], suffixes[1..], k)
  {
    CandidateShift(name, suffixes, k);
    forall j | 0 <= j < k + 1 ensures !Unused(users, Candidate(name, suffixes, j)) {
      if j > 0 {
        CandidateShift(name, suffixes, j - 1);
      }
    }
  }

  lemma NoneFreeShift(users: map<nat, User>, name: string, suffixes: seq<string>)
    requires suffixes != [] && !Unused(users, name)
    requires !SomeFree(users, name + "_" + suffixes[0], suffixes[1..])
    ensures !SomeFree(users, name, suffixes)
  {
    forall k | 0 <= k <= |suffixes| ensures !Unused(users, Candidate(name, suffixes, k)) {
      if k > 0 {
        CandidateShift(name, suffixes, k - 1);
      }
    }
  }

  /** The free name is the one with the fewest suffixes; there is none if all of them are taken. */
  lemma {:induction false} FreeNameExactly(users: map<nat, User>, name: string, suffixes: seq<string>) returns (k: nat)
    ensures FreeName(users, name, suffixes).Some? <==> SomeFree(users, name, suffixes)
    ensures FreeName(users, name, suffixes).Some? ==>
      FirstFree(users, name, suffixes, k) && FreeName(users, name, suffixes).value == Candidate(name, suffixes, k)
    decreases suffixes
  {
    k := 0;
    assert Candidate(name, suffixes, 0) == name;
    if !Unused(users, name) && suffixes != [] {
      var longer, rest := name + "_" + suffixes[0], suffixes[1..];
      var fewer := FreeNameExactly(users, longer, rest);
      k := fewer + 1;
      if FreeName(users, longer, rest).Some? {
        FirstFreeShift(users, name, suffixes, fewer);
      } else {
        NoneFreeShift(users, name, suffixes);
      }
    }
  }

  /** The right password, an enabled user and a new uuid. */
  predicate MayLogin(s: State, uid: nat, verified: bool, sid: Sid) {
    verified && uid in s.users && s.users[uid].enabled && sid !in s.takenSids
  }

  predicate MayRegister(s: State, uid: nat, name: string, suffixes: seq<string>, first: nat, sid: Sid) {
    uid !in s.takenUsers && first in s.roles && sid !in s.takenSids && SomeFree(s.users, name, suffixes)
  }

  /** The stored token, not over, of an enabled user, who may have several sessions or has none. */
  predicate MayRefresh(s: State, token: Token, sid: Sid, now: int) {
    && now <= token.expires
    && token.uid in s.users && s.users[token.uid].enabled
    && Refresh(token.uid, token.sid) in s.store && s.store[Refresh(token.uid, token.sid)] == TokenValue(token)
    && (s.users[token.uid].multi || forall k :: k in s.store && k.Access? ==> k.uid != token.uid)
    && sid !in s.takenSids
  }

  /** The calls that open the session (uid, sid) with both tokens. */
  predicate Opens(s: State, a: Action, uid: nat, sid: Sid) {
    match a
    case DoLogin(u, verified, i, _, _) => u == uid && i == sid && MayLogin(s, u, verified, i)
    case DoOAuth2Login(u, i, _, _) => u == uid && i == sid && u in s.users && i !in s.takenSids
    case DoOAuth2Register(u, name, suffixes, first, i, _, _) =>
      u == uid && i == sid && MayRegister(s, u, name, suffixes, first, i)
    case DoRefresh(token, i, now) => token.uid == uid && i == sid && MayRefresh(s, token, i, now)
    case _ => false
  }

  /** A documentation login opens one with an access token only. */
  predicate OpensDocs(s: State, a: Action, uid: nat, sid: Sid) {
    a.DoSwaggerLogin? && a.uid == uid && a.sid == sid && MayLogin(s, uid, a.verified, sid)
  }

  /** The tokens of the new session are stored, for two hours and for a day. */
  predicate Stored(t: State, uid: nat, sid: Sid, now: int) {
    && Access(uid, sid) in t.store && t.store[Access(uid, sid)] == TokenValue(Token(uid, sid, now + 7200))
    && Refresh(uid, sid) in t.store && t.store[Refresh(uid, sid)] == TokenValue(Token(uid, sid, now + 86400))
  }

  lemma LoginAnswers(s: State, a: Action)
    requires a.DoLogin? || a.DoSwaggerLogin?
    ensures var (t, out) := Next(s, a);
      if Opens(s, a, a.uid, a.sid)
      then out == Renewed(Token(a.uid, a.sid, a.now + 7200), Token(a.uid, a.sid, a.now + 86400))
           && Stored(t, a.uid, a.sid, a.now)
      else if OpensDocs(s, a, a.uid, a.sid)
      then out == Opened(Token(a.uid, a.sid, a.now + 7200))
           && Access(a.uid, a.sid) in t.store && t.store[Access(a.uid, a.sid)] == TokenValue(out.access)
      else out == Refused && t == s
  {
  }

  lemma OAuth2Answers(s: State, a: Action)
    requires a.DoOAuth2Login? || a.DoOAuth2Register?
    ensures var (t, out) := Next(s, a);
      if Opens(s, a, a.uid, a.sid)
      then out == Renewed(Token(a.uid, a.sid, a.now + 7200), Token(a.uid, a.sid, a.now + 86400))
           && Stored(t, a.uid, a.sid, a.now)
      else out == Refused && t == s
  {
    if a.DoOAuth2Register? {
      var k := FreeNameExactly(s.users, a.name, a.suffixes);
    }
  }

  lemma RefreshAnswers(s: State, a: Action)
    requires a.DoRefresh?
    ensures var (t, out) := Next(s, a);
      if Opens(s, a, a.token.uid, a.sid)
      then out == Renewed(Token(a.token.uid, a.sid, a.now + 7200), Token(a.token.uid, a.sid, a.now + 86400))
           && Stored(t, a.token.uid, a.sid, a.now)
      else out == Refused && t == s
  {
  }

  predicate OpensNone(a: Action) {
    !a.DoLogin? && !a.DoSwaggerLogin? && !a.DoOAuth2Login? && !a.DoOAuth2Register? && !a.DoRefresh?
  }

  lemma OthersStoreNone(s: State, a: Action, k: Key)
    requires OpensNone(a) && !k.Cached? && k !in s.store
    ensures k !in Next(s, a).0.store
  {
  }

  /** A live access token appears exactly by one of these calls. */
  lemma AccessBeginsExactly(s: State, a: Action, uid: nat, sid: Sid)
    requires Access(uid, sid) !in s.store
    ensures Access(uid, sid) in Next(s, a).0.store <==> Opens(s, a, uid, sid) || OpensDocs(s, a, uid, sid)
  {
    if a.DoLogin? || a.DoSwaggerLogin? {
      LoginAnswers(s, a);
    } else if a.DoOAuth2Login? || a.DoOAuth2Register? {
      OAuth2Answers(s, a);
    } else if a.DoRefresh? {
      RefreshAnswers(s, a);
    } else {
      OthersStoreNone(s, a, Access(uid, sid));
    }
  }

  /** And a live refresh token by those that give one. */
  lemma RefreshBeginsExactly(s: State, a: Action, uid: nat, sid: Sid)
    requires Refresh(uid, sid) !in s.store
    ensures Refresh(uid, sid) in Next(s, a).0.store <==> Opens(s, a, uid, sid)
  {
    if a.DoLogin? || a.DoSwaggerLogin? {
      LoginAnswers(s, a);
    } else if a.DoOAuth2Login? || a.DoOAuth2Register? {
      OAuth2Answers(s, a);
    } else if a.DoRefresh? {
      RefreshAnswers(s, a);
    } else {
      OthersStoreNone(s, a, Refresh(uid, sid));
    }
  }

  // ---------------------------------------------------------------- when a token is accepted

  /** The user is enabled and, if it has roles, one of them is. */
  predicate MayEnter(s: State, uid: nat) {
    && uid in s.users && s.users[uid].enabled
    && ((forall r :: r in s.roles ==> (uid, r) !in s.userRoles)
        || exists r :: r in s.roles && (uid, r) in s.userRoles && s.roles[r].enabled)
  }

  lemma AdmissibleIsMayEnter(s: State, uid: nat)
    requires uid in s.users
    ensures Admissible(ViewOf(s, uid)) <==> MayEnter(s, uid)
  {
    var v := ViewOf(s, uid);
    assert forall r :: r in v.roles <==> r in s.roles && (uid, r) in s.userRoles;
    assert v.roles == map[] <==> forall r :: r !in v.roles;
  }

  ghost predicate ShowsUser(s: State, uid: nat, v: View) {
    && uid in s.users && v.user == s.users[uid]
    && (forall r :: r in v.roles <==> r in s.roles && (uid, r) in s.userRoles)
    && (forall r :: r in v.roles ==> v.roles[r] == s.roles[r])
  }

  /**
   * In every reachable state a token is accepted if and only if it is the stored one, not over, and its user may
   * enter; and what comes with it shows the user's row and roles as they are.
   */
  lemma AcceptedExactly(start: State, run: seq<Action>, token: Token, now: int)
    requires Initial(start)
    ensures var s := Exec(start, run);
      var out := Authenticate(s, token, now).1;
      && (out.Accepted? <==>
            && now <= token.expires
            && Access(token.uid, token.sid) in s.store && s.store[Access(token.uid, token.sid)] == TokenValue(token)
            && MayEnter(s, token.uid))
      && (out.Accepted? ==> ShowsUser(s, token.uid, out.view))
      && (!out.Accepted? ==> out == Refused)
  {
    ReachableInv(start, run);
    var s := Exec(start, run);
    if Access(token.uid, token.sid) in s.store {
      assert EntryGood(s, Access(token.uid, token.sid));
      assert CoherentAt(s, token.uid);
      AdmissibleIsMayEnter(s, token.uid);
    }
  }

  // ---------------------------------------------------------------- user rows

  predicate MayCreate(s: State, uid: nat, name: string, password: bool, roleIds: set<nat>) {
    uid !in s.takenUsers && Unused(s.users, name) && password && forall r :: r in roleIds ==> r in s.roles
  }

  predicate MayUpdate(s: State, uid: nat, name: string, roleIds: set<nat>) {
    && uid in s.users && (forall r :: r in roleIds ==> r in s.roles)
    && (name == s.users[uid].name || Unused(s.users, name))
  }

  predicate Registers(s: State, a: Action, uid: nat) {
    a.DoOAuth2Register? && a.uid == uid && MayRegister(s, uid, a.name, a.suffixes, a.first, a.sid)
  }

  predicate Creates(s: State, a: Action, uid: nat) {
    a.DoCreateUser? && a.uid == uid && MayCreate(s, uid, a.name, a.password, a.roleIds)
  }

  predicate Updates(s: State, a: Action, uid: nat) {
    a.DoUpdateUser? && a.uid == uid && MayUpdate(s, uid, a.name, a.roleIds)
  }

  /** This flag of the user changes; nobody changes flags of their own this way. */
  predicate Toggles(s: State, a: Action, uid: nat, what: Permission) {
    a.DoUpdatePermission? && a.uid == uid && uid in s.users && a.what == what && a.requester != uid
  }

  predicate SwitchesMulti(s: State, a: Action, uid: nat) {
    a.DoUpdatePermission? && a.uid == uid && uid in s.users && a.what == MultiLogin
  }

  lemma RegisterRow(s: State, a: Action)
    requires a.DoOAuth2Register?
    ensures var t := Next(s, a).0;
      && t.users.Keys == (if Registers(s, a, a.uid) then s.users.Keys + {a.uid} else s.users.Keys)
      && (forall u :: u in s.users && u != a.uid ==> t.users[u] == s.users[u])
      && (Registers(s, a, a.uid) ==>
            && (exists k :: FirstFree(s.users, a.name, a.suffixes, k)
                  && t.users[a.uid] == User(Candidate(a.name, a.suffixes, k), true, false, false, true, a.profile))
            && t.userRoles == s.userRoles + {(a.uid, a.first)})
      && (!Registers(s, a, a.uid) ==> t == s)
      && t.roles == s.roles
  {
    var k := FreeNameExactly(s.users, a.name, a.suffixes);
    if Registers(s, a, a.uid) {
      assert FirstFree(s.users, a.name, a.suffixes, k);
      assert (set r | r in {a.first} && r in s.roles :: (a.uid, r)) == {(a.uid, a.first)};
    }
  }

  /** A user row appears by a creation that is allowed, or with an unknown social account. */
  lemma UserAppearsExactly(s: State, a: Action, uid: nat)
    requires uid !in s.users
    ensures var t := Next(s, a).0;
      && (uid in t.users <==> Creates(s, a, uid) || Registers(s, a, uid))
      && (Creates(s, a, uid) ==> t.users[uid] == User(a.name, true, false, false, false, a.profile))
  {
    if a.DoOAuth2Register? {
      RegisterRow(s, a);
    }
  }

  /** And goes by its removal only. */
  lemma UserLeavesExactly(s: State, a: Action, uid: nat)
    requires uid in s.users
    ensures uid !in Next(s, a).0.users <==> a == DoDeleteUser(uid)
  {
    if a.DoOAuth2Register? {
      RegisterRow(s, a);
    }
  }

  ghost predicate RowFits(s: State, a: Action, uid: nat)
    requires uid in s.users && uid in Next(s, a).0.users
  {
    var before, after := s.users[uid], Next(s, a).0.users[uid];
    && after.name == (if Updates(s, a, uid) then a.name else before.name)
    && (after.superuser != before.superuser <==> Toggles(s, a, uid, Superuser))
    && (after.staff != before.staff <==> Toggles(s, a, uid, Staff))
    && (after.enabled != before.enabled <==> Toggles(s, a, uid, Status))
    && after.multi == (if SwitchesMulti(s, a, uid) then !a.requesterMulti else before.multi)
  }

  lemma SignOnRow(s: State, a: Action, uid: nat)
    requires !OpensNone(a) && uid in s.users && uid in s.takenUsers && uid in Next(s, a).0.users
    ensures RowFits(s, a, uid)
  {
    if a.DoOAuth2Register? {
      RegisterRow(s, a);
    }
  }

  lemma PermissionElsewhere(s: State, a: Action, uid: nat)
    requires a.DoUpdatePermission? && uid in s.users && uid != a.uid
    ensures uid in Next(s, a).0.users && Next(s, a).0.users[uid] == s.users[uid]
  {
  }

  /** The row of the user whose permission is changed. */
  function Permitted(u: User, a: Action): User
    requires a.DoUpdatePermission?
  {
    if a.what == MultiLogin then u.(multi := !a.requesterMulti, profile := a.profile)
    else if a.requester == a.uid then u
    else if a.what == Superuser then u.(superuser := !u.superuser, profile := a.profile)
    else if a.what == Staff then u.(staff := !u.staff, profile := a.profile)
    else u.(enabled := !u.enabled, profile := a.profile)
  }

  lemma PermissionUser(s: State, a: Action)
    requires a.DoUpdatePermission? && a.uid in s.users
    ensures a.uid in Next(s, a).0.users && Next(s, a).0.users[a.uid] == Permitted(s.users[a.uid], a)
  {
  }

  lemma PermissionRow(s: State, a: Action)
    requires a.DoUpdatePermission? && a.uid in s.users
    ensures a.uid in Next(s, a).0.users && RowFits(s, a, a.uid)
  {
    PermissionUser(s, a);
    assert !Updates(s, a, a.uid);
    assert Toggles(s, a, a.uid, a.what) <==> a.requester != a.uid;
    assert SwitchesMulti(s, a, a.uid) <==> a.what == MultiLogin;
  }

  lemma OtherRow(s: State, a: Action, uid: nat)
    requires OpensNone(a) && !a.DoUpdatePermission? && uid in s.users && uid in s.takenUsers
    requires uid in Next(s, a).0.users
    ensures RowFits(s, a, uid)
  {
  }

  /** What becomes of the name and the flags of a user: the name by an update, one flag by each kind of switch. */
  lemma UserRowExactly(s: State, a: Action, uid: nat)
    requires uid in s.users && uid in s.takenUsers && a != DoDeleteUser(uid)
    ensures uid in Next(s, a).0.users
    ensures var (before, after) := (s.users[uid], Next(s, a).0.users[uid]);
      && after.name == (if Updates(s, a, uid) then a.name else before.name)
      && (after.superuser != before.superuser <==> Toggles(s, a, uid, Superuser))
      && (after.staff != before.staff <==> Toggles(s, a, uid, Staff))
      && (after.enabled != before.enabled <==> Toggles(s, a, uid, Status))
      && after.multi == (if SwitchesMulti(s, a, uid) then !a.requesterMulti else before.multi)
  {
    UserLeavesExactly(s, a, uid);
    if !OpensNone(a) {
      SignOnRow(s, a, uid);
    } else if a.DoUpdatePermission? {
      if a.uid == uid {
        PermissionRow(s, a);
      } else {
        PermissionElsewhere(s, a, uid);
      }
    } else {
      OtherRow(s, a, uid);
    }
  }

  /** The calls that write the other columns of a user. */
  predicate Writes(s: State, a: Action, uid: nat) {
    match a
    case DoLogin(u, verified, sid, _, _) => u == uid && MayLogin(s, u, verified, sid)
    case DoSwaggerLogin(u, verified, sid, _, _) => u == uid && MayLogin(s, u, verified, sid)
    case DoOAuth2Login(u, sid, _, _) => u == uid && sid !in s.takenSids
    case DoUpdateUser(u, name, _, roleIds) => u == uid && MayUpdate(s, u, name, roleIds)
    case DoUpdatePermission(u, what, requester, _, _, _) => u == uid && (what == MultiLogin || requester != uid)
    case DoResetPassword(u, valid, _) => u == uid && valid
    case DoUpdatePassword(u, verified, _) => u == uid && verified
    case DoUpdateProfile(u, captcha, _) => u == uid && captcha
    case _ => false
  }

  lemma ProfileExactly(s: State, a: Action, uid: nat)
    requires uid in s.users && uid in s.takenUsers && a != DoDeleteUser(uid)
    ensures uid in Next(s, a).0.users
    ensures Next(s, a).0.users[uid].profile == if Writes(s, a, uid) then a.profile else s.users[uid].profile
  {
    if a.DoOAuth2Register? {
      RegisterRow(s, a);
    }
  }

  // ---------------------------------------------------------------- role links and roles

  /**
   * Which users have which roles: a creation links the roles it names, an update replaces all links of the user,
   * a removal takes them, and nothing else changes any.
   */
  lemma LinksExactly(s: State, a: Action, uid: nat, rid: nat)
    ensures (uid, rid) in Next(s, a).0.userRoles <==>
      if Updates(s, a, uid) then rid in a.roleIds
      else if a == DoDeleteUser(uid) && uid in s.users then false
      else
        || (uid, rid) in s.userRoles
        || (Creates(s, a, uid) && rid in a.roleIds)
        || (Registers(s, a, uid) && rid == a.first)
  {
    if a.DoOAuth2Register? {
      RegisterRow(s, a);
    }
  }

  predicate RoleUnused(roles: map<nat, Role>, name: string) {
    forall r :: r in roles ==> roles[r].name != name
  }

  /** Roles appear under a free name and a new id, change under their own or a free name, and go by removal. */
  lemma RolesExactly(s: State, a: Action, rid: nat)
    requires s.roles.Keys <= s.takenRoles
    ensures var t := Next(s, a).0;
      && (rid !in s.roles ==>
            (rid in t.roles <==>
               a.DoCreateRole? && a.rid == rid && rid !in s.takenRoles && RoleUnused(s.roles, a.role.name)))
      && (rid in s.roles ==> (rid !in t.roles <==> a.DoDeleteRoles? && rid in a.rids))
      && (rid !in s.roles && rid in t.roles ==> t.roles[rid] == a.role)
      && (rid in s.roles && rid in t.roles ==>
            t.roles[rid] == if a.DoUpdateRole? && a.rid == rid
                               && (a.role.name == s.roles[rid].name || RoleUnused(s.roles, a.role.name))
                            then a.role else s.roles[rid])
  {
    if a.DoOAuth2Register? {
      RegisterRow(s, a);
    }
  }

  // ---------------------------------------------------------------- cached users and extra information

  /** The calls that take the cached entry of a user away. */
  predicate Clears(s: State, a: Action, uid: nat) {
    match a
    case DoRefresh(token, sid, now) => token.uid == uid && MayRefresh(s, token, sid, now)
    case DoLogin(u, verified, sid, _, _) => u == uid && MayLogin(s, u, verified, sid)
    case DoSwaggerLogin(u, verified, sid, _, _) => u == uid && MayLogin(s, u, verified, sid)
    case DoOAuth2Login(u, sid, _, _) => u == uid && u in s.users && sid !in s.takenSids
    case DoOAuth2Register(u, _, _, _, _, _, _) => Registers(s, a, uid)
    case DoUpdateUser(u, name, _, roleIds) => u == uid && MayUpdate(s, u, name, roleIds)
    case DoUpdatePermission(u, what, requester, _, _, _) =>
      u == uid && u in s.users && (what == MultiLogin || requester != uid)
    case DoResetPassword(u, valid, _) => u == uid && u in s.users && valid
    case DoUpdatePassword(u, verified, _) => u in s.users && verified && Hits(u, uid)
    case DoUpdateProfile(u, captcha, _) => u == uid && captcha
    case DoUpdateRole(r, role) =>
      && r in s.roles && (uid, r) in s.userRoles
      && (role.name == s.roles[r].name || RoleUnused(s.roles, role.name))
    case DoDeleteRoles(rids) => exists r :: r in rids && (uid, r) in s.userRoles
    case DoExpire(keys) => Cached(uid) in keys
    case _ => false
  }

  lemma SignOnClears(s: State, a: Action, uid: nat)
    requires !OpensNone(a) && Cached(uid) in s.store
    ensures Cached(uid) !in Next(s, a).0.store <==> Clears(s, a, uid)
  {
    if a.DoOAuth2Register? {
      var k := FreeNameExactly(s.users, a.name, a.suffixes);
    }
  }

  lemma RoleClears(s: State, a: Action, uid: nat)
    requires (a.DoUpdateRole? || a.DoDeleteRoles?) && Cached(uid) in s.store
    ensures Cached(uid) !in Next(s, a).0.store <==> Clears(s, a, uid)
  {
    forall rids: set<nat>
      ensures Cached(uid) in CacheOfRoles(s, rids) <==> exists r :: r in rids && (uid, r) in s.userRoles
    {
      if r :| r in rids && (uid, r) in s.userRoles {
        assert (uid, r).1 in rids;
      }
    }
  }

  lemma OtherClears(s: State, a: Action, uid: nat)
    requires OpensNone(a) && !a.DoUpdateRole? && !a.DoDeleteRoles? && Cached(uid) in s.store
    ensures Cached(uid) !in Next(s, a).0.store <==> Clears(s, a, uid)
  {
  }

  /** A cached entry goes exactly by one of these calls. */
  lemma ClearsExactly(s: State, a: Action, uid: nat)
    requires Cached(uid) in s.store
    ensures Cached(uid) !in Next(s, a).0.store <==> Clears(s, a, uid)
  {
    if !OpensNone(a) {
      SignOnClears(s, a, uid);
    } else if a.DoUpdateRole? || a.DoDeleteRoles? {
      RoleClears(s, a, uid);
    } else {
      OtherClears(s, a, uid);
    }
  }

  /** It comes only when a token is checked, and only for a user who may enter. */
  lemma CachesExactly(s: State, a: Action, uid: nat)
    requires Cached(uid) !in s.store
    ensures Cached(uid) in Next(s, a).0.store <==>
      && a.DoAuthenticate? && a.token.uid == uid && a.now <= a.token.expires
      && Access(uid, a.token.sid) in s.store && s.store[Access(uid, a.token.sid)] == TokenValue(a.token)
      && MayEnter(s, uid)
  {
    if a.DoAuthenticate? && uid in s.users {
      AdmissibleIsMayEnter(s, uid);
    }
  }

  lemma RegisterExtra(s: State, a: Action, uid: nat, sid: Sid)
    requires a.DoOAuth2Register? && Extra(uid, sid) !in s.store
    ensures Extra(uid, sid) in Next(s, a).0.store <==> Opens(s, a, uid, sid)
  {
    var k := FreeNameExactly(s.users, a.name, a.suffixes);
  }

  lemma SignOnExtra(s: State, a: Action, uid: nat, sid: Sid)
    requires !OpensNone(a) && !a.DoOAuth2Register? && Extra(uid, sid) !in s.store
    ensures Extra(uid, sid) in Next(s, a).0.store <==> Opens(s, a, uid, sid) || OpensDocs(s, a, uid, sid)
  {
  }

  /** The extra information of a session comes with its access token. */
  lemma ExtraBeginsExactly(s: State, a: Action, uid: nat, sid: Sid)
    requires Extra(uid, sid) !in s.store
    ensures Extra(uid, sid) in Next(s, a).0.store <==> Opens(s, a, uid, sid) || OpensDocs(s, a, uid, sid)
  {
    if a.DoOAuth2Register? {
      RegisterExtra(s, a, uid, sid);
    } else if OpensNone(a) {
      OthersStoreNone(s, a, Extra(uid, sid));
    } else {
      SignOnExtra(s, a, uid, sid);
    }
  }

  /** It goes by logout, revocation or expiry only, and outlives its token otherwise. */
  lemma ExtraEndsExactly(s: State, a: Action, uid: nat, sid: Sid)
    requires Extra(uid, sid) in s.store
    ensures Extra(uid, sid) !in Next(s, a).0.store <==>
      || a == DoLogout(uid, sid, true) || a == DoLogout(uid, sid, false) || a == DoRevoke(uid, sid)
      || (a.DoExpire? && Extra(uid, sid) in a.keys)
  {
  }

  lemma SignOnKeeps(s: State, a: Action, k: Key)
    requires !OpensNone(a) && !a.DoOAuth2Register? && EntryGood(s, k) && k in s.store && k in Next(s, a).0.store
    ensures Next(s, a).0.store[k] == s.store[k] || k.Extra?
  {
  }

  lemma RegisterKeeps(s: State, a: Action, k: Key)
    requires a.DoOAuth2Register? && EntryGood(s, k) && k in s.store && k in Next(s, a).0.store
    ensures Next(s, a).0.store[k] == s.store[k] || k.Extra?
  {
  }

  lemma OtherKeeps(s: State, a: Action, k: Key)
    requires OpensNone(a) && k in s.store && k in Next(s, a).0.store
    ensures Next(s, a).0.store[k] == s.store[k]
  {
  }

  /** What stays in the store keeps its value: no token is ever replaced by another of the same session. */
  lemma ValuesStay(s: State, a: Action, k: Key)
    requires Inv(s) && !k.Extra? && k in s.store && k in Next(s, a).0.store
    ensures Next(s, a).0.store[k] == s.store[k]
  {
    assert EntryGood(s, k);
    if a.DoOAuth2Register? {
      RegisterKeeps(s, a, k);
    } else if OpensNone(a) {
      OtherKeeps(s, a, k);
    } else {
      SignOnKeeps(s, a, k);
    }
  }

  // ---------------------------------------------------------------- which calls are refused

  /** The calls on rows, and ends of sessions, that are done; all others are refused. */
  predicate Allowed(s: State, a: Action) {
    match a
    case DoCreateUser(u, name, password, _, roleIds) => MayCreate(s, u, name, password, roleIds)
    case DoUpdateUser(u, name, _, roleIds) => MayUpdate(s, u, name, roleIds)
    case DoUpdatePermission(u, what, requester, _, _, _) => u in s.users && (what == MultiLogin || requester != u)
    case DoResetPassword(u, valid, _) => u in s.users && valid
    case DoUpdatePassword(u, verified, _) => u in s.users && verified
    case DoUpdateProfile(_, captcha, _) => captcha
    case DoDeleteUser(u) => u in s.users
    case DoCreateRole(r, role) => r !in s.takenRoles && RoleUnused(s.roles, role.name)
    case DoUpdateRole(r, role) =>
      r in s.roles && (role.name == s.roles[r].name || RoleUnused(s.roles, role.name))
    case _ => true
  }

  /** A call that is not allowed is refused and changes nothing. */
  lemma AnswersExactly(s: State, a: Action)
    requires OpensNone(a) && !a.DoAuthenticate?
    ensures Next(s, a).1 == if Allowed(s, a) then Done else Refused
    ensures !Allowed(s, a) ==> Next(s, a).0 == s
  {
  }
}

/**
 * The services that change users, roles and sessions, statement by statement, over the tables and one Redis
 * client. Each call is proved to be the step of the state machine in module Sessions.
 */
module SessionService {
  import opened Options
  import opened RedisKeys
  import opened Sessions

  class Backend {
    const redis: RedisCli<Value>
    var users: map<nat, User>
    var roles: map<nat, Role>
    var userRoles: set<(nat, nat)>
    /** The ids and uuids that were ever handed out. */
    ghost var takenUsers: set<nat>
    ghost var takenRoles: set<nat>
    ghost var takenSids: set<Sid>

    ghost function State(): State
      reads this, redis
    {
      Sessions.State(users, roles, userRoles, takenUsers, takenRoles, takenSids, redis.store)
    }

    constructor (users: map<nat, User>, roles: map<nat, Role>, userRoles: set<(nat, nat)>)
      requires forall p :: p in userRoles ==> p.0 in users && p.1 in roles
      ensures Initial(State()) && fresh(redis)
      ensures this.users == users && this.roles == roles && this.userRoles == userRoles
    {
      this.users, this.roles, this.userRoles := users, roles, userRoles;
      takenUsers, takenRoles, takenSids := users.Keys, roles.Keys, {};
      redis := new RedisCli<Value>();
    }

    // -------------------------------------------------------------- tokens

    method CreateAccessToken(uid: nat, multi: bool, sid: Sid, now: int) returns (token: Token)
      modifies this`takenSids, redis
      ensures token == AccessToken(uid, sid, now)
      ensures State() == old(State()).(
                store := WithAccess(old(redis.store), uid, sid, now, multi),
                takenSids := old(takenSids) + {sid})
    {
      token := AccessToken(uid, sid, now);
      takenSids := takenSids + {sid};
      if !multi {
        redis.DeleteUserKeys(AccessKeys, uid, {});
      }
      redis.Delete({Cached(uid)});
      redis.Set(Access(uid, sid), TokenValue(token));
      redis.Set(Extra(uid, sid), Info);
    }

    method CreateRefreshToken(sid: Sid, uid: nat, multi: bool, now: int) returns (token: Token)
      modifies redis
      ensures token == RefreshToken(uid, sid, now)
      ensures redis.store == WithRefresh(old(redis.store), uid, sid, now, multi)
    {
      token := RefreshToken(uid, sid, now);
      if !multi {
        redis.DeleteUserKeys(RefreshKeys, uid, {});
      }
      redis.Set(Refresh(uid, sid), TokenValue(token));
    }

    /** Both tokens of a new session, as the login services create them. */
    method CreateSession(uid: nat, sid: Sid, now: int) returns (access: Token, refresh: Token)
      requires uid in users
      modifies this`takenSids, redis
      ensures access == AccessToken(uid, sid, now) && refresh == RefreshToken(uid, sid, now)
      ensures State() == OpenSession(old(State()), uid, sid, now)
    {
      var multi := users[uid].multi;
      access := CreateAccessToken(uid, multi, sid, now);
      refresh := CreateRefreshToken(sid, uid, multi, now);
    }

    method CreateNewToken(token: Token, sid: Sid, now: int) returns (out: Outcome)
      requires token.uid in users
      modifies this`takenSids, redis
      ensures var key := Refresh(token.uid, token.sid);
        if key !in old(redis.store) || old(redis.store)[key] != TokenValue(token)
        then out == Refused && State() == old(State())
        else out == Renewed(AccessToken(token.uid, sid, now), RefreshToken(token.uid, sid, now))
             && State() == OpenSession(
                  old(State()).(store := old(redis.store) - {key, Access(token.uid, token.sid)}), token.uid, sid, now)
    {
      var key := Refresh(token.uid, token.sid);
      if key !in redis.store || redis.store[key] != TokenValue(token) {
        return Refused;
      }
      ghost var before := redis.store;
      redis.Delete({key});
      redis.Delete({Access(token.uid, token.sid)});
      assert redis.store == before - {key, Access(token.uid, token.sid)};
      var access, refresh := CreateSession(token.uid, sid, now);
      out := Renewed(access, refresh);
    }

    method RevokeToken(uid: nat, sid: Sid)
      modifies redis
      ensures (State(), Done) == Revoke(old(State()), uid, sid)
    {
      ghost var before := redis.store;
      redis.Delete({Access(uid, sid)});
      redis.Delete({Extra(uid, sid)});
      assert redis.store == before - {Access(uid, sid), Extra(uid, sid)};
    }

    method JwtUser(uid: nat) returns (out: Outcome)
      modifies redis
      ensures (State(), out) == GetJwtUser(old(State()), uid)
    {
      if Cached(uid) in redis.store {
        var value := redis.store[Cached(uid)];
        out := if value.ViewValue? then Accepted(value.view) else Refused;
      } else if uid !in users || !users[uid].enabled {
        out := Refused;
      } else {
        var held := map r | r in roles && (uid, r) in userRoles :: roles[r];
        assert held == ViewOf(State(), uid).roles;
        if held != map[] && forall r :: r in held ==> !held[r].enabled {
          out := Refused;
        } else {
          var view := View(users[uid], held);
          redis.Set(Cached(uid), ViewValue(view));
          out := Accepted(view);
        }
      }
    }

    method JwtAuthentication(token: Token, now: int) returns (out: Outcome)
      modifies redis
      ensures (State(), out) == Authenticate(old(State()), token, now)
    {
      var key := Access(token.uid, token.sid);
      if token.expires < now || key !in redis.store || redis.store[key] != TokenValue(token) {
        return Refused;
      }
      out := JwtUser(token.uid);
    }

    // -------------------------------------------------------------- logins

    method UpdateLoginTime(uid: nat, profile: int)
      requires uid in users
      modifies this`users
      ensures State() == SetUser(old(State()), uid, old(users)[uid].(profile := profile))
    {
      users := users[uid := users[uid].(profile := profile)];
    }

    method LoginUser(uid: nat, verified: bool, sid: Sid, now: int, profile: int) returns (out: Outcome)
      requires sid !in takenSids
      modifies this`users, this`takenSids, redis
      ensures (State(), out) == Login(old(State()), uid, verified, sid, now, profile)
    {
      if uid !in users || !users[uid].enabled || !verified {
        return Refused;
      }
      UpdateLoginTime(uid, profile);
      var access, refresh := CreateSession(uid, sid, now);
      out := Renewed(access, refresh);
    }

    method LoginSwagger(uid: nat, verified: bool, sid: Sid, now: int, profile: int) returns (out: Outcome)
      requires sid !in takenSids
      modifies this`users, this`takenSids, redis
      ensures (State(), out) == SwaggerLogin(old(State()), uid, verified, sid, now, profile)
    {
      if uid !in users || !users[uid].enabled || !verified {
        return Refused;
      }
      UpdateLoginTime(uid, profile);
      var access := CreateAccessToken(uid, users[uid].multi, sid, now);
      out := Opened(access);
    }

    /** The login time is written after the tokens, which leaves no cached entry behind. */
    method LoginOAuth2(uid: nat, sid: Sid, now: int, profile: int) returns (out: Outcome)
      requires uid in users && sid !in takenSids
      modifies this`users, this`takenSids, redis
      ensures (State(), out) == OAuth2Login(old(State()), uid, sid, now, profile)
    {
      var access, refresh := CreateSession(uid, sid, now);
      UpdateLoginTime(uid, profile);
      out := Renewed(access, refresh);
    }

    /** Looks for a free name by adding random suffixes; `None` if these suffixes do not do. */
    method FindFreeName(name: string, suffixes: seq<string>) returns (free: Option<string>)
      ensures free == FreeName(users, name, suffixes)
    {
      var candidate, i := name, 0;
      while UserNamed(users, candidate)
        invariant i <= |suffixes| && FreeName(users, candidate, suffixes[i..]) == FreeName(users, name, suffixes)
        decreases |suffixes| - i
      {
        if i == |suffixes| {
          return None;
        }
        candidate := candidate + "_" + suffixes[i];
        assert suffixes[i..][1..] == suffixes[i + 1..];
        i := i + 1;
      }
      free := Some(candidate);
    }

    /** The user row of an unknown social account, with a free name and the first role. */
    method AddByOAuth2(uid: nat, name: string, suffixes: seq<string>, first: nat, profile: int) returns (ok: bool)
      requires uid !in takenUsers
      modifies this`users, this`userRoles, this`takenUsers
      ensures ok <==> FreeName(old(users), name, suffixes).Some? && first in roles
      ensures !ok ==> State() == old(State())
      ensures ok ==> State() == AddUser(old(State()), uid,
                                        OAuth2User(FreeName(old(users), name, suffixes).value, profile), {first})
    {
      var free := FindFreeName(name, suffixes);
      if free.None? || first !in roles {
        return false;
      }
      InsertUser(uid, OAuth2User(free.value, profile), [first]);
      assert (set r | r in [first]) == {first};
      ok := true;
    }

    method RefreshTokens(token: Token, sid: Sid, now: int) returns (out: Outcome)
      requires sid !in takenSids
      modifies this`takenSids, redis
      ensures (State(), out) == Refreshed(old(State()), token, sid, now)
    {
      if token.expires < now || token.uid !in users || !users[token.uid].enabled {
        return Refused;
      }
      if !users[token.uid].multi {
        var live := redis.GetSessions(token.uid);
        assert live != {} <==> HasSession(redis.store, token.uid) by {
          HasKey(live);
        }
        if live != {} {
          return Refused;
        }
      }
      out := CreateNewToken(token, sid, now);
    }

    method LogoutSession(uid: nat, sid: Sid, cookie: bool)
      modifies redis
      ensures (State(), Done) == Logout(old(State()), uid, sid, cookie)
    {
      ghost var before := redis.store;
      redis.Delete({Access(uid, sid)});
      redis.Delete({Extra(uid, sid)});
      if cookie {
        redis.Delete({Refresh(uid, sid)});
      }
      assert redis.store ==
             before - {Access(uid, sid), Extra(uid, sid)} - (if cookie then {Refresh(uid, sid)} else {});
    }

    // -------------------------------------------------------------- users

    method InsertUser(uid: nat, user: User, roleIds: seq<nat>)
      requires forall r :: r in roleIds ==> r in roles
      modifies this`users, this`userRoles, this`takenUsers
      ensures State() == AddUser(old(State()), uid, user, set r | r in roleIds)
    {
      users := users[uid := user];
      takenUsers := takenUsers + {uid};
      LinkRoles(uid, roleIds);
      assert (set r | r in (set q | q in roleIds) && r in roles :: (uid, r)) == set r | r in roleIds :: (uid, r);
    }

    method LinkRoles(uid: nat, roleIds: seq<nat>)
      modifies this`userRoles
      ensures userRoles == old(userRoles) + set r | r in roleIds :: (uid, r)
    {
      for i := 0 to |roleIds|
        invariant userRoles == old(userRoles) + set r | r in roleIds[..i] :: (uid, r)
      {
        assert roleIds[..i + 1] == roleIds[..i] + [roleIds[i]];
        userRoles := userRoles + {(uid, roleIds[i])};
      }
      assert roleIds[..|roleIds|] == roleIds;
    }

    method RolesExist(roleIds: seq<nat>) returns (found: bool)
      ensures found <==> (set r | r in roleIds) <= roles.Keys
    {
      for i := 0 to |roleIds|
        invariant forall r :: r in roleIds[..i] ==> r in roles
      {
        if roleIds[i] !in roles {
          assert roleIds[i] in (set r | r in roleIds);
          return false;
        }
      }
      found := true;
    }

    method CreateUserRow(uid: nat, name: string, password: bool, profile: int, roleIds: seq<nat>)
      returns (out: Outcome)
      requires uid !in takenUsers
      modifies this`users, this`userRoles, this`takenUsers
      ensures (State(), out) == CreateUser(old(State()), uid, name, password, profile, set r | r in roleIds)
    {
      if UserNamed(users, name) || !password {
        return Refused;
      }
      var found := RolesExist(roleIds);
      if !found {
        return Refused;
      }
      assert forall r :: r in roleIds ==> r in (set q | q in roleIds);
      InsertUser(uid, User(name, true, false, false, false, profile), roleIds);
      out := Done;
    }

    method UpdateUserRow(uid: nat, name: string, profile: int, roleIds: seq<nat>) returns (out: Outcome)
      modifies this`users, this`userRoles, redis
      ensures (State(), out) == UpdateUser(old(State()), uid, name, profile, set r | r in roleIds)
    {
      if uid !in users {
        return Refused;
      }
      if name != users[uid].name && UserNamed(users, name) {
        return Refused;
      }
      var found := RolesExist(roleIds);
      if !found {
        return Refused;
      }
      users := users[uid := users[uid].(name := name, profile := profile)];
      userRoles := set p | p in userRoles && p.0 != uid;
      LinkRoles(uid, roleIds);
      ghost var ids := set r | r in roleIds;
      assert (set r | r in ids :: (uid, r)) == (set r | r in roleIds :: (uid, r));
      redis.Delete({Cached(uid)});
      assert userRoles == UpdateUser(old(State()), uid, name, profile, ids).0.userRoles;
      out := Done;
    }

    /** `token` is the access token of the request, `requesterMulti` the flag of the requesting user. */
    method UpdateUserPermission(uid: nat, what: Permission, token: Token, requesterMulti: bool, profile: int)
      returns (out: Outcome)
      modifies this`users, redis
      ensures (State(), out) ==
              UpdatePermission(old(State()), uid, what, token.uid, token.sid, requesterMulti, profile)
    {
      if uid !in users {
        return Refused;
      }
      if what != MultiLogin && uid == token.uid {
        return Refused;
      }
      var user := users[uid].(profile := profile);
      match what {
        case Superuser =>
          users := users[uid := user.(superuser := !user.superuser)];
        case Staff =>
          users := users[uid := user.(staff := !user.staff)];
        case Status =>
          users := users[uid := user.(enabled := !user.enabled)];
        case MultiLogin =>
          var multi := !requesterMulti;
          users := users[uid := user.(multi := multi)];
          if !multi {
            redis.DeleteUserKeys(AccessKeys, uid, {Access(uid, token.sid)});
          }
      }
      redis.Delete({Cached(uid)});
      out := Done;
    }

    /** Three single deletions, the first two of keys that never exist. */
    method ResetUserPassword(uid: nat, valid: bool, profile: int) returns (out: Outcome)
      modifies this`users, redis
      ensures (State(), out) == ResetPassword(old(State()), uid, valid, profile)
    {
      if uid !in users || !valid {
        return Refused;
      }
      users := users[uid := users[uid].(profile := profile)];
      DeleteExact(AccessKeys, uid);
      DeleteExact(RefreshKeys, uid);
      DeleteExact(CachedKeys, uid);
      assert redis.store == old(redis.store) - {Cached(uid)};
      out := Done;
    }

    /** Deletes the one key that is spelled exactly like the prefix, if there is one. */
    method DeleteExact(space: Space, uid: nat)
      modifies redis
      ensures redis.store == old(redis.store) - (if space == CachedKeys then {Cached(uid)} else {})
    {
      ghost var before := redis.store;
      var spelled := set k | k in redis.store && Text(k) == PrefixText(space, uid);
      forall k | k in redis.store
        ensures k in spelled <==> space == CachedKeys && k == Cached(uid)
      {
        if space == CachedKeys {
          assert PrefixText(space, uid) == Text(Cached(uid));
          TextInjective(k, Cached(uid));
        } else {
          PrefixIsNoSessionKey(space, uid, k);
        }
      }
      redis.Delete(spelled);
      assert redis.store == before - (if space == CachedKeys then {Cached(uid)} else {});
    }

    method UpdateUserPassword(uid: nat, verified: bool, profile: int) returns (out: Outcome)
      modifies this`users, redis
      ensures (State(), out) == UpdatePassword(old(State()), uid, verified, profile)
    {
      if uid !in users || !verified {
        return Refused;
      }
      users := users[uid := users[uid].(profile := profile)];
      redis.DeleteUserKeys(AccessKeys, uid, {});
      redis.DeleteUserKeys(RefreshKeys, uid, {});
      redis.DeleteUserKeys(CachedKeys, uid, {});
      out := Done;
    }

    method UpdateUserProfile(uid: nat, captcha: bool, profile: int) returns (out: Outcome)
      modifies this`users, redis
      ensures (State(), out) == UpdateProfile(old(State()), uid, captcha, profile)
    {
      if !captcha {
        return Refused;
      }
      if uid in users {
        users := users[uid := users[uid].(profile := profile)];
      }
      redis.Delete({Cached(uid)});
      out := Done;
    }

    method DeleteUserRow(uid: nat) returns (out: Outcome)
      modifies this`users, this`userRoles, redis
      ensures (State(), out) == DeleteUser(old(State()), uid)
    {
      if uid !in users {
        return Refused;
      }
      users := users - {uid};
      userRoles := set p | p in userRoles && p.0 != uid;
      redis.DeleteUserKeys(AccessKeys, uid, {});
      redis.DeleteUserKeys(RefreshKeys, uid, {});
      out := Done;
    }

    // -------------------------------------------------------------- roles

    method Clear(uids: set<nat>)
      modifies redis
      ensures redis.store == old(redis.store) - set u | u in uids :: Cached(u)
    {
      if uids != {} {
        redis.Delete(set u | u in uids :: Cached(u));
      }
    }

    /** The users come from the user_role table as it is after the roles were written. */
    method ClearByRoleId(rids: set<nat>)
      modifies redis
      ensures redis.store == old(redis.store) - CacheOfRoles(old(State()), rids)
    {
      var uids := set p | p in userRoles && p.1 in rids :: p.0;
      assert (set u | u in uids :: Cached(u)) == CacheOfRoles(State(), rids) by {
        forall p | p in userRoles && p.1 in rids ensures Cached(p.0) in (set u | u in uids :: Cached(u)) {
          assert p.0 in uids;
        }
      }
      Clear(uids);
    }

    method CreateRoleRow(rid: nat, role: Role) returns (out: Outcome)
      requires rid !in takenRoles
      modifies this`roles, this`takenRoles
      ensures (State(), out) == CreateRole(old(State()), rid, role)
    {
      if RoleNamed(roles, role.name) {
        return Refused;
      }
      roles := roles[rid := role];
      takenRoles := takenRoles + {rid};
      out := Done;
    }

    method UpdateRoleRow(rid: nat, role: Role) returns (out: Outcome)
      modifies this`roles, redis
      ensures (State(), out) == UpdateRole(old(State()), rid, role)
    {
      if rid !in roles {
        return Refused;
      }
      if role.name != roles[rid].name && RoleNamed(roles, role.name) {
        return Refused;
      }
      roles := roles[rid := role];
      ClearByRoleId({rid});
      out := Done;
    }

    method DeleteRoleRows(rids: set<nat>)
      modifies this`roles, redis
      ensures (State(), Done) == DeleteRoles(old(State()), rids)
    {
      roles := roles - rids;
      ClearByRoleId(rids);
    }
  }
}

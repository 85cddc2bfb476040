/**
 * Social accounts and the users they are bound to, beside users, roles and sessions. A social login signs on the
 * bound user, or the one with the same email, or a new one, and binds the account.
 */
module OAuth2 {
  import opened Options
  import opened RedisKeys
  import opened SessionLaws
  import opened Sessions
  import opened SessionService

  datatype Source = Github | Google

  datatype Account = Account(source: Source, id: string)

  datatype World = World(base: State, bound: map<Account, nat>)

  /** `byEmail` is the user with the email of the account, if there is one; a new user gets the id `uid`. */
  datatype Event =
    | Other(action: Action)
    | SocialLogin(account: Account, byEmail: Option<nat>, uid: nat, name: string, suffixes: seq<string>, first: nat,
                  sid: Sid, now: int, profile: int)
    | Bind(uid: nat, account: Account)
    | Unbind(uid: nat, source: Source)

  predicate HasBinding(bound: map<Account, nat>, uid: nat, source: Source) {
    exists account :: account in bound && account.source == source && bound[account] == uid
  }

  function WithoutUser(bound: map<Account, nat>, uid: nat): map<Account, nat> {
    map account | account in bound && bound[account] != uid :: bound[account]
  }

  function WithoutSource(bound: map<Account, nat>, uid: nat, source: Source): map<Account, nat> {
    map account | account in bound && !(bound[account] == uid && account.source == source) :: bound[account]
  }

  /** The step that a social login is for users, roles and sessions. */
  function SignOn(w: World, e: Event): Action
    requires e.SocialLogin?
  {
    if e.account in w.bound then DoOAuth2Login(w.bound[e.account], e.sid, e.now, e.profile)
    else if e.byEmail.Some? then DoOAuth2Login(e.byEmail.value, e.sid, e.now, e.profile)
    else DoOAuth2Register(e.uid, e.name, e.suffixes, e.first, e.sid, e.now, e.profile)
  }

  /**
   * A bound account whose user is gone raises. Binding asks for no user row: the id comes from a state that may
   * be older than the user's removal. Unbinding is asked for by an authenticated user.
   */
  function Step(w: World, e: Event): (World, Outcome) {
    match e
    case Other(action) =>
      if action.DoOAuth2Login? || action.DoOAuth2Register? then (w, Refused)
      else
        var (base, out) := Next(w.base, action);
        (World(base, if action.DoDeleteUser? && out == Done then WithoutUser(w.bound, action.uid) else w.bound), out)
    case SocialLogin(account, _, _, _, _, _, _, _, _) =>
      var (base, out) := Next(w.base, SignOn(w, e));
      if out == Refused then (w, Refused)
      else (World(base, if account in w.bound then w.bound else w.bound[account := SignOn(w, e).uid]), out)
    case Bind(uid, account) =>
      if uid !in w.base.takenUsers || HasBinding(w.bound, uid, account.source) || account in w.bound then (w, Refused)
      else (w.(bound := w.bound[account := uid]), Done)
    case Unbind(uid, source) =>
      if uid !in w.base.users || !HasBinding(w.bound, uid, source) then (w, Refused)
      else (w.(bound := WithoutSource(w.bound, uid, source)), Done)
  }

  function After(start: World, run: seq<Event>): World {
    if run == [] then start else Step(After(start, run[..|run| - 1]), run[|run| - 1]).0
  }

  /** Any database whose bindings name users that exist or once did, with nothing in Redis yet. */
  predicate Begins(w: World) {
    Initial(w.base) && Named(w)
  }

  predicate Named(w: World) {
    forall account :: account in w.bound ==> w.bound[account] in w.base.takenUsers
  }

  // ---------------------------------------------------------------- a run of the sessions

  lemma OAuth2Kinds(s: State, a: Action)
    requires a.DoOAuth2Login? || a.DoOAuth2Register?
    ensures Next(s, a).1 == Refused ==> Next(s, a).0 == s
    ensures Next(s, a).1 != Refused ==> a.uid in Next(s, a).0.users
    ensures Next(s, a).1 != Refused ==> a.uid in s.users || a.uid in Next(s, a).0.takenUsers
    ensures s.takenUsers <= Next(s, a).0.takenUsers && s.users.Keys <= Next(s, a).0.users.Keys
  {
  }

  /** What happens to users, roles and sessions is a run of module Sessions. */
  lemma {:induction false} BaseRuns(start: World, run: seq<Event>) returns (actions: seq<Action>)
    ensures After(start, run).base == Exec(start.base, actions)
  {
    if run == [] {
      actions := [];
    } else {
      var front, e := run[..|run| - 1], run[|run| - 1];
      var before := BaseRuns(start, front);
      var w := After(start, front);
      if e.Other? && !e.action.DoOAuth2Login? && !e.action.DoOAuth2Register? {
        actions := before + [e.action];
        assert actions[..|before|] == before;
      } else if e.SocialLogin? {
        actions := before + [SignOn(w, e)];
        assert actions[..|before|] == before;
        OAuth2Kinds(w.base, SignOn(w, e));
      } else {
        actions := before;
      }
    }
  }

  /** So cache coherence, single login and well-formed sessions hold with social logins as well. */
  lemma WorldInv(start: World, run: seq<Event>)
    requires Begins(start)
    ensures Inv(After(start, run).base)
  {
    var actions := BaseRuns(start, run);
    ReachableInv(start.base, actions);
  }

  // ---------------------------------------------------------------- which user a login signs on

  /** The bound user, or else the one with the email, or else a new one. */
  function UserOf(w: World, account: Account, byEmail: Option<nat>, uid: nat): nat {
    if account in w.bound then w.bound[account] else if byEmail.Some? then byEmail.value else uid
  }

  /**
   * A login opens a session of that user, whatever its status, and binds the account to it. It is refused only if
   * the user is gone or, for an unknown account, if no row can be made.
   */
  lemma LoginExactly(w: World, e: Event)
    requires e.SocialLogin? && e.sid !in w.base.takenSids
    ensures var (t, out) := Step(w, e);
      var user := UserOf(w, e.account, e.byEmail, e.uid);
      if (if e.account in w.bound || e.byEmail.Some? then user in w.base.users
          else MayRegister(w.base, e.uid, e.name, e.suffixes, e.first, e.sid))
      then out == Renewed(Token(user, e.sid, e.now + 7200), Token(user, e.sid, e.now + 86400))
           && Stored(t.base, user, e.sid, e.now) && user in t.base.users && t.bound == w.bound[e.account := user]
      else out == Refused && t == w
  {
    OAuth2Answers(w.base, SignOn(w, e));
    OAuth2Kinds(w.base, SignOn(w, e));
    assert e.account in w.bound ==> w.bound[e.account := w.bound[e.account]] == w.bound;
  }

  /** Binding is done for a free account, if the user has none of its source; nobody asks for the user's row. */
  lemma BindExactly(w: World, uid: nat, account: Account)
    requires uid in w.base.takenUsers
    ensures var (t, out) := Step(w, Bind(uid, account));
      if account !in w.bound && forall b :: b in w.bound && b.source == account.source ==> w.bound[b] != uid
      then out == Done && t.base == w.base && t.bound == w.bound[account := uid]
      else out == Refused && t == w
  {
  }

  /** Unbinding frees the accounts of that source, and no others. */
  lemma UnbindExactly(w: World, uid: nat, source: Source, account: Account)
    requires uid in w.base.users
    ensures var (t, out) := Step(w, Unbind(uid, source));
      && t.base == w.base
      && (out == Done <==> exists b :: b in w.bound && b.source == source && w.bound[b] == uid)
      && (out != Done ==> out == Refused && t == w)
      && (account in t.bound <==> account in w.bound && !(account.source == source && w.bound[account] == uid))
  {
  }

  // ---------------------------------------------------------------- an account leads to one user

  /** The steps that take this account's binding away. */
  predicate Unbinds(w: World, e: Event, account: Account) {
    && account in w.bound && w.bound[account] in w.base.users
    && ((e.Unbind? && e.uid == w.bound[account] && e.source == account.source)
        || (e.Other? && e.action.DoDeleteUser? && e.action.uid == w.bound[account]))
  }

  /** Exactly these do, and no step binds a bound account to another user. */
  lemma UnbindsExactly(w: World, e: Event, account: Account)
    requires account in w.bound
    ensures Unbinds(w, e, account) <==> account !in Step(w, e).0.bound
    ensures account in Step(w, e).0.bound ==> Step(w, e).0.bound[account] == w.bound[account]
  {
    if e.Unbind? {
      assert HasBinding(w.bound, w.bound[account], account.source);
    }
  }

  predicate UnbindsAt(start: World, run: seq<Event>, i: nat, account: Account) {
    i < |run| && Unbinds(After(start, run[..i]), run[i], account)
  }

  /** So a bound account leads to its user until that user unbinds the source or is removed. */
  lemma {:induction false} AccountKeepsItsUser(start: World, run: seq<Event>, account: Account)
    requires account in start.bound && forall i: nat :: !UnbindsAt(start, run, i, account)
    ensures account in After(start, run).bound && After(start, run).bound[account] == start.bound[account]
  {
    if run != [] {
      var front := run[..|run| - 1];
      forall i: nat ensures !UnbindsAt(start, front, i, account) {
        if i < |front| {
          assert front[..i] == run[..i] && !UnbindsAt(start, run, i, account);
        }
      }
      AccountKeepsItsUser(start, front, account);
      assert !UnbindsAt(start, run, |run| - 1, account);
      UnbindsExactly(After(start, front), run[|run| - 1], account);
    }
  }

  /** A user that was removed stays removed, and every id that was given out stays so. */
  lemma RemovedStays(w: World, e: Event)
    ensures w.base.takenUsers <= Step(w, e).0.base.takenUsers
    ensures forall u :: u in w.base.takenUsers && u !in w.base.users ==> u !in Step(w, e).0.base.users
  {
  }

  lemma {:induction false} RunNamed(start: World, run: seq<Event>)
    requires Begins(start)
    ensures Named(After(start, run))
  {
    if run != [] {
      var w, e := After(start, run[..|run| - 1]), run[|run| - 1];
      RunNamed(start, run[..|run| - 1]);
      WorldInv(start, run[..|run| - 1]);
      StepNamed(w, e);
    }
  }

  lemma StepNamed(w: World, e: Event)
    requires Named(w) && w.base.users.Keys <= w.base.takenUsers
    ensures Named(Step(w, e).0)
  {
    RemovedStays(w, e);
    if e.SocialLogin? {
      OAuth2Kinds(w.base, SignOn(w, e));
    }
  }

  // ---------------------------------------------------------------- accounts of removed users

  /** The account is bound to a user that was removed. */
  predicate Dangling(w: World, account: Account) {
    account in w.bound && w.bound[account] in w.base.takenUsers && w.bound[account] !in w.base.users
  }

  lemma DanglingStep(w: World, e: Event, account: Account)
    requires Dangling(w, account)
    ensures Dangling(Step(w, e).0, account)
    ensures e.SocialLogin? && e.account == account ==> Step(w, e) == (w, Refused)
    ensures e.Bind? && e.account == account ==> Step(w, e) == (w, Refused)
  {
    UnbindsExactly(w, e, account);
    RemovedStays(w, e);
  }

  /** Once an account dangles, it can never log in or be bound again. */
  lemma {:induction false} DanglingForever(start: World, run: seq<Event>, i: nat, account: Account)
    requires i <= |run| && Dangling(After(start, run[..i]), account)
    ensures Dangling(After(start, run), account)
    ensures forall e: Event :: (e.SocialLogin? || e.Bind?) && e.account == account ==>
      Step(After(start, run), e) == (After(start, run), Refused)
    decreases |run|
  {
    if i == |run| {
      assert run[..i] == run;
    } else {
      var front := run[..|run| - 1];
      assert front[..i] == run[..i];
      DanglingForever(start, front, i, account);
      DanglingStep(After(start, front), run[|run| - 1], account);
    }
    forall e: Event | (e.SocialLogin? || e.Bind?) && e.account == account
      ensures Step(After(start, run), e) == (After(start, run), Refused)
    {
      DanglingStep(After(start, run), e, account);
    }
  }

  predicate NoneDangles(w: World) {
    forall account :: account in w.bound ==> w.bound[account] in w.base.users
  }

  /** A binding that is completed after its user was removed. */
  predicate BindsLate(w: World, e: Event) {
    e.Bind? && e.uid !in w.base.users && Step(w, e).1 == Done
  }

  lemma FirstDangles(w: World, e: Event)
    requires NoneDangles(w)
    ensures NoneDangles(Step(w, e).0) <==> !BindsLate(w, e)
  {
    if e.SocialLogin? {
      OAuth2Kinds(w.base, SignOn(w, e));
    } else if e.Bind? && Step(w, e).1 == Done {
      assert e.account in Step(w, e).0.bound;
    }
  }

  lemma StepDanglesIff(w: World, e: Event)
    requires Named(w)
    ensures NoneDangles(Step(w, e).0) <==> NoneDangles(w) && !BindsLate(w, e)
  {
    if NoneDangles(w) {
      FirstDangles(w, e);
    } else {
      var account :| account in w.bound && w.bound[account] !in w.base.users;
      DanglingStep(w, e, account);
    }
  }

  predicate BindsLateAt(start: World, run: seq<Event>, i: nat) {
    i < |run| && BindsLate(After(start, run[..i]), run[i])
  }

  ghost predicate NoneBindsLate(start: World, run: seq<Event>) {
    forall i :: !BindsLateAt(start, run, i)
  }

  lemma NoneBindsLateSnoc(start: World, run: seq<Event>)
    requires run != []
    ensures var n := |run| - 1;
      NoneBindsLate(start, run) <==> NoneBindsLate(start, run[..n]) && !BindsLate(After(start, run[..n]), run[n])
  {
    var n := |run| - 1;
    forall i: nat | i < n ensures BindsLateAt(start, run[..n], i) == BindsLateAt(start, run, i) {
      assert run[..n][..i] == run[..i];
    }
    assert BindsLateAt(start, run, n) == BindsLate(After(start, run[..n]), run[n]);
    if NoneBindsLate(start, run[..n]) && !BindsLateAt(start, run, n) {
      forall i: nat ensures !BindsLateAt(start, run, i) {
        assert !BindsLateAt(start, run[..n], i);
      }
    }
  }

  /** Accounts dangle after a run if and only if one of its steps binds late. */
  lemma {:induction false} RunDanglesIff(start: World, run: seq<Event>)
    requires Begins(start) && NoneDangles(start)
    ensures NoneDangles(After(start, run)) <==> NoneBindsLate(start, run)
  {
    if run != [] {
      var front := run[..|run| - 1];
      RunDanglesIff(start, front);
      RunNamed(start, front);
      StepDanglesIff(After(start, front), run[|run| - 1]);
      NoneBindsLateSnoc(start, run);
    }
  }

  /** A user begins to bind an account, is removed, and the binding completes. */
  lemma LateBindingDangles(w: World, uid: nat, account: Account)
    requires uid in w.base.users && uid in w.base.takenUsers && account !in w.bound
    ensures Dangling(Step(Step(w, Other(DoDeleteUser(uid))).0, Bind(uid, account)).0, account)
  {
    var t := Step(w, Other(DoDeleteUser(uid))).0;
    assert t.bound == WithoutUser(w.bound, uid);
    assert !HasBinding(t.bound, uid, account.source);
  }

  // ---------------------------------------------------------------- one account of each source

  /** No user has two accounts of one source. */
  predicate OnePerSource(w: World) {
    forall a, b :: a in w.bound && b in w.bound && w.bound[a] == w.bound[b] && a.source == b.source ==> a == b
  }

  /** A login with a second account of the same source, for a user who is found by the email. */
  predicate BindsSecond(w: World, e: Event) {
    && e.SocialLogin? && e.account !in w.bound && e.byEmail.Some? && Step(w, e).1 != Refused
    && HasBinding(w.bound, e.byEmail.value, e.account.source)
  }

  lemma StepKeepsOneIff(w: World, e: Event)
    requires OnePerSource(w) && Named(w)
    ensures OnePerSource(Step(w, e).0) <==> !BindsSecond(w, e)
  {
  }

  predicate BindsSecondAt(start: World, run: seq<Event>, i: nat) {
    i < |run| && BindsSecond(After(start, run[..i]), run[i])
  }

  /** Binding checks that a user has at most one account of a source; only a login by email can break that. */
  lemma {:induction false} RunKeepsOne(start: World, run: seq<Event>)
    requires Begins(start) && OnePerSource(start)
    requires forall i: nat :: !BindsSecondAt(start, run, i)
    ensures OnePerSource(After(start, run))
  {
    if run != [] {
      var front := run[..|run| - 1];
      forall i: nat ensures !BindsSecondAt(start, front, i) {
        if i < |front| {
          assert run[..i] == front[..i] && !BindsSecondAt(start, run, i);
        }
      }
      RunKeepsOne(start, front);
      assert !BindsSecondAt(start, run, |run| - 1);
      RunNamed(start, front);
      StepKeepsOneIff(After(start, front), run[|run| - 1]);
    }
  }

  function LoginByEmail(account: Account, uid: nat, sid: Sid): Event {
    SocialLogin(account, Some(uid), 0, "", [], 0, sid, 0, 0)
  }

  lemma EmailBinds(w: World, uid: nat, account: Account, sid: Sid)
    requires uid in w.base.users && account !in w.bound && sid !in w.base.takenSids
    ensures var t := Step(w, LoginByEmail(account, uid, sid)).0;
      t.bound == w.bound[account := uid] && uid in t.base.users && t.base.takenSids == w.base.takenSids + {sid}
  {
  }

  /** Two accounts of one source log in with the email of one user, and both are bound to it. */
  lemma SecondAccountByEmail(w: World, uid: nat, a: Account, b: Account, sid1: Sid, sid2: Sid)
    requires uid in w.base.users && a != b && a.source == b.source && a !in w.bound && b !in w.bound
    requires sid1 != sid2 && sid1 !in w.base.takenSids && sid2 !in w.base.takenSids
    ensures var t := Step(Step(w, LoginByEmail(a, uid, sid1)).0, LoginByEmail(b, uid, sid2)).0;
      a in t.bound && b in t.bound && t.bound[a] == uid && t.bound[b] == uid && !OnePerSource(t)
  {
    EmailBinds(w, uid, a, sid1);
    EmailBinds(Step(w, LoginByEmail(a, uid, sid1)).0, uid, b, sid2);
  }

  // ---------------------------------------------------------------- the services

  class OAuth2Service {
    const backend: Backend
    var bound: map<Account, nat>

    ghost function Contents(): World
      reads this, backend, backend.redis
    {
      World(backend.State(), bound)
    }

    constructor (backend: Backend)
      ensures this.backend == backend && bound == map[]
    {
      this.backend, bound := backend, map[];
    }

    method Login(account: Account, byEmail: Option<nat>, uid: nat, name: string, suffixes: seq<string>, first: nat,
                 sid: Sid, now: int, profile: int) returns (out: Outcome)
      requires uid !in backend.takenUsers && sid !in backend.takenSids
      requires byEmail.Some? ==> byEmail.value in backend.users
      modifies this`bound, backend, backend.redis
      ensures (Contents(), out) ==
              Step(old(Contents()), SocialLogin(account, byEmail, uid, name, suffixes, first, sid, now, profile))
    {
      var user := uid;
      if account in bound {
        user := bound[account];
        if user !in backend.users {
          return Refused;
        }
      } else {
        if byEmail.Some? {
          user := byEmail.value;
        } else {
          var ok := backend.AddByOAuth2(uid, name, suffixes, first, profile);
          if !ok {
            return Refused;
          }
        }
        bound := bound[account := user];
      }
      out := backend.LoginOAuth2(user, sid, now, profile);
    }

    method BindingWithOAuth2(uid: nat, account: Account) returns (out: Outcome)
      requires uid in backend.takenUsers
      modifies this`bound
      ensures (Contents(), out) == Step(old(Contents()), Bind(uid, account))
    {
      if HasBinding(bound, uid, account.source) {
        return Refused;
      }
      if account in bound {
        return Refused;
      }
      bound := bound[account := uid];
      out := Done;
    }

    method Unbinding(uid: nat, source: Source) returns (out: Outcome)
      requires uid in backend.users
      modifies this`bound
      ensures (Contents(), out) == Step(old(Contents()), Unbind(uid, source))
    {
      if !HasBinding(bound, uid, source) {
        return Refused;
      }
      bound := WithoutSource(bound, uid, source);
      out := Done;
    }

    method DeleteUser(uid: nat) returns (out: Outcome)
      modifies this`bound, backend, backend.redis
      ensures (Contents(), out) == Step(old(Contents()), Other(DoDeleteUser(uid)))
    {
      if uid in backend.users {
        bound := WithoutUser(bound, uid);
      }
      out := backend.DeleteUserRow(uid);
    }
  }
}

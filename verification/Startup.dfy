/**
 * Several workers start at once: each takes a Redis lock with a timeout, creates the tables, and seeds the
 * database in one transaction if it has no user yet. Any step of one worker may fail, and any worker may die.
 */
module Startup {
  import opened Options

  const LOCK_TIMEOUT_MS: int := 300_000
  const LOCK_BLOCKING_TIMEOUT_MS: int := 120_000

  type Worker = nat

  /** The seed script: no file, or its statements, each of which inserts a user or does something else. */
  type Script = Option<seq<bool>>

  datatype Phase =
    | Waiting(deadline: int)
    | Locked(until: int)
    | Created(until: int)
    | Seeding(until: int, done: nat)
    | Ready(until: int)
    | Returned
    | Exited
    | Dead

  datatype Lock = Lock(owner: Worker, until: int)

  datatype State = State(now: int, lock: Option<Lock>, tables: bool, users: bool, commits: nat,
                         workers: map<Worker, Phase>)

  datatype Step =
    | Begin(w: Worker)
    | Acquire(w: Worker)
    | GiveUp(w: Worker)
    | CreateAll(w: Worker)
    | Check(w: Worker)
    | Execute(w: Worker)
    | Commit(w: Worker)
    | Release(w: Worker)
    | Fail(w: Worker)
    | Die(w: Worker)
    | AddUser
    | Pass(ms: nat)

  const NOTHING := State(0, None, false, false, 0, map[])

  predicate InsertsUser(script: Script) {
    script.Some? && true in script.value
  }

  /** The worker is inside the lock and still has to touch the database. */
  predicate Critical(p: Phase) {
    p.Locked? || p.Created? || p.Seeding?
  }

  predicate Inside(p: Phase) {
    Critical(p) || p.Ready?
  }

  predicate Free(s: State) {
    s.lock.None? || s.lock.value.until <= s.now
  }

  predicate Owns(s: State, w: Worker, until: int) {
    s.lock == Some(Lock(w, until)) && s.now < until
  }

  predicate Enabled(script: Script, s: State, step: Step) {
    match step
    case Begin(w) => w !in s.workers
    case Acquire(w) => w in s.workers && s.workers[w].Waiting? && Free(s)
    case GiveUp(w) => w in s.workers && s.workers[w].Waiting? && s.workers[w].deadline <= s.now
    case CreateAll(w) => w in s.workers && s.workers[w].Locked?
    case Check(w) => w in s.workers && s.workers[w].Created?
    case Execute(w) =>
      w in s.workers && s.workers[w].Seeding? && script.Some? && s.workers[w].done < |script.value|
    case Commit(w) =>
      w in s.workers && s.workers[w].Seeding? && script.Some? && s.workers[w].done == |script.value|
    case Release(w) => w in s.workers && s.workers[w].Ready?
    case Fail(w) => w in s.workers && Inside(s.workers[w])
    case Die(w) => w in s.workers && !s.workers[w].Returned? && !s.workers[w].Exited?
    case AddUser => s.tables
    case Pass(_) => true
  }

  function SetPhase(s: State, w: Worker, p: Phase): State {
    s.(workers := s.workers[w := p])
  }

  /** Giving the lock back: only its owner, and only in time, can. */
  function Released(s: State, w: Worker, until: int): State {
    s.(lock := if Owns(s, w, until) then None else s.lock)
  }

  /**
   * Statements of the script stay invisible until the commit. Releasing a lock that is no longer owned raises,
   * and every error ends the process; a process that dies leaves its lock to the timeout.
   */
  function Next(script: Script, s: State, step: Step): State {
    if !Enabled(script, s, step) then s
    else
      match step
      case Begin(w) => SetPhase(s, w, Waiting(s.now + LOCK_BLOCKING_TIMEOUT_MS))
      case Acquire(w) =>
        SetPhase(s, w, Locked(s.now + LOCK_TIMEOUT_MS)).(lock := Some(Lock(w, s.now + LOCK_TIMEOUT_MS)))
      case GiveUp(w) => SetPhase(s, w, Exited)
      case CreateAll(w) => SetPhase(s, w, Created(s.workers[w].until)).(tables := true)
      case Check(w) =>
        SetPhase(s, w, if script.None? || s.users then Ready(s.workers[w].until) else Seeding(s.workers[w].until, 0))
      case Execute(w) => SetPhase(s, w, s.workers[w].(done := s.workers[w].done + 1))
      case Commit(w) =>
        SetPhase(s, w, Ready(s.workers[w].until)).(users := s.users || InsertsUser(script), commits := s.commits + 1)
      case Release(w) =>
        Released(SetPhase(s, w, if Owns(s, w, s.workers[w].until) then Returned else Exited), w, s.workers[w].until)
      case Fail(w) => Released(SetPhase(s, w, Exited), w, s.workers[w].until)
      case Die(w) => SetPhase(s, w, Dead)
      case AddUser => s.(users := true)
      case Pass(ms) => s.(now := s.now + ms)
  }

  function Exec(script: Script, start: State, run: seq<Step>): State {
    if run == [] then start else Next(script, Exec(script, start, run[..|run| - 1]), run[|run| - 1])
  }

  // ---------------------------------------------------------------- the lock

  /** No worker that still has to touch the database has held the lock past its timeout. */
  predicate InTime(s: State) {
    forall w :: w in s.workers && Critical(s.workers[w]) ==> s.now < s.workers[w].until
  }

  predicate Punctual(script: Script, run: seq<Step>) {
    forall i :: 0 <= i <= |run| ==> InTime(Exec(script, NOTHING, run[..i]))
  }

  predicate Guarded(s: State) {
    forall w :: w in s.workers && Critical(s.workers[w]) ==> Owns(s, w, s.workers[w].until)
  }

  lemma StepGuarded(script: Script, s: State, step: Step)
    requires Guarded(s) && InTime(Next(script, s, step))
    ensures Guarded(Next(script, s, step))
  {
    var t := Next(script, s, step);
    forall w | w in t.workers && Critical(t.workers[w]) ensures Owns(t, w, t.workers[w].until) {
      assert t.now < t.workers[w].until;
      assert w in s.workers && Critical(s.workers[w]) ==> Owns(s, w, s.workers[w].until);
    }
  }

  // ---------------------------------------------------------------- one seed

  predicate Seeded(script: Script, s: State) {
    && (forall w :: w in s.workers ==>
          var p := s.workers[w];
          && (p.Created? || p.Seeding? || p.Ready? || p.Returned? ==> s.tables)
          && (p.Seeding? ==> script.Some? && (InsertsUser(script) ==> s.commits == 0))
          && (p.Ready? || p.Returned? ==> script.Some? ==> s.users || s.commits > 0))
    && (InsertsUser(script) ==> s.commits <= 1 && (s.commits == 1 ==> s.users))
    && (script.None? ==> s.commits == 0)
  }

  lemma StepSeeded(script: Script, s: State, step: Step)
    requires Guarded(s) && Seeded(script, s)
    ensures Seeded(script, Next(script, s, step))
  {
    var t := Next(script, s, step);
    forall w | w in t.workers
      ensures var p := t.workers[w];
        && (p.Created? || p.Seeding? || p.Ready? || p.Returned? ==> t.tables)
        && (p.Seeding? ==> script.Some? && (InsertsUser(script) ==> t.commits == 0))
        && (p.Ready? || p.Returned? ==> script.Some? ==> t.users || t.commits > 0)
    {
      assert w in s.workers && Critical(s.workers[w]) ==> Owns(s, w, s.workers[w].until);
      assert step.Commit? && step.w in s.workers && Critical(s.workers[step.w]) ==>
        Owns(s, step.w, s.workers[step.w].until);
    }
  }

  lemma {:induction false} RunSeeded(script: Script, run: seq<Step>)
    requires Punctual(script, run)
    ensures Guarded(Exec(script, NOTHING, run)) && Seeded(script, Exec(script, NOTHING, run))
  {
    if run != [] {
      var front := run[..|run| - 1];
      forall i | 0 <= i <= |front| ensures InTime(Exec(script, NOTHING, front[..i])) {
        assert front[..i] == run[..i];
      }
      RunSeeded(script, front);
      assert run[..|run|] == run;
      StepGuarded(script, Exec(script, NOTHING, front), run[|run| - 1]);
      StepSeeded(script, Exec(script, NOTHING, front), run[|run| - 1]);
    }
  }

  /** Two workers are never inside the lock with work left to do. */
  lemma OneInside(script: Script, run: seq<Step>, v: Worker, w: Worker)
    requires Punctual(script, run)
    requires var s := Exec(script, NOTHING, run);
      v in s.workers && w in s.workers && Critical(s.workers[v]) && Critical(s.workers[w])
    ensures v == w
  {
    RunSeeded(script, run);
    var s := Exec(script, NOTHING, run);
    assert Owns(s, v, s.workers[v].until) && Owns(s, w, s.workers[w].until);
  }

  /** A worker that returns sees the tables, and, if the script inserts a user, the seeded data. */
  lemma ReturnedSeesData(script: Script, run: seq<Step>, w: Worker)
    requires Punctual(script, run)
    requires var s := Exec(script, NOTHING, run); w in s.workers && s.workers[w].Returned?
    ensures var s := Exec(script, NOTHING, run);
      s.tables && (InsertsUser(script) ==> s.users) && (script.Some? ==> s.users || s.commits > 0)
  {
    RunSeeded(script, run);
  }

  // ---------------------------------------------------------------- when the script inserts no user

  lemma Snoc(script: Script, s: State, run: seq<Step>, step: Step)
    ensures Exec(script, s, run + [step]) == Next(script, Exec(script, s, run), step)
  {
    assert (run + [step])[..|run|] == run;
  }

  lemma {:induction false} ExecJoins(script: Script, s: State, a: seq<Step>, b: seq<Step>)
    ensures Exec(script, s, a + b) == Exec(script, Exec(script, s, a), b)
  {
    if b == [] {
      assert a + b == a;
    } else {
      var n := |b| - 1;
      ExecJoins(script, s, a, b[..n]);
      Snoc(script, s, a + b[..n], b[n]);
      assert a + b == a + b[..n] + [b[n]];
    }
  }

  function Statements(w: Worker, n: nat): seq<Step> {
    if n == 0 then [] else Statements(w, n - 1) + [Execute(w)]
  }

  lemma OneStatement(script: Script, s: State, w: Worker, until: int, done: nat)
    requires script.Some? && done < |script.value|
    ensures Next(script, SetPhase(s, w, Seeding(until, done)), Execute(w)) == SetPhase(s, w, Seeding(until, done + 1))
  {
    assert s.workers[w := Seeding(until, done)][w := Seeding(until, done + 1)]
        == s.workers[w := Seeding(until, done + 1)];
  }

  lemma {:induction false} StatementsRun(script: Script, s: State, w: Worker, n: nat)
    requires script.Some? && n <= |script.value| && w in s.workers
    requires s.workers[w].Seeding? && s.workers[w].done == 0
    ensures Exec(script, s, Statements(w, n)) == SetPhase(s, w, Seeding(s.workers[w].until, n))
  {
    if n == 0 {
      assert s.workers[w := s.workers[w]] == s.workers;
    } else {
      var until := s.workers[w].until;
      StatementsRun(script, s, w, n - 1);
      Snoc(script, s, Statements(w, n - 1), Execute(w));
      OneStatement(script, s, w, until, n - 1);
    }
  }

  /** One worker from its start to its commit and return, without a pause. */
  function Turn(w: Worker, n: nat): seq<Step> {
    [Begin(w)] + [Acquire(w)] + [CreateAll(w)] + [Check(w)] + Statements(w, n) + [Commit(w)] + [Release(w)]
  }

  lemma FirstSteps(script: Script, s: State, w: Worker)
    requires script.Some? && !s.users && w !in s.workers && s.lock.None?
    ensures var until := s.now + LOCK_TIMEOUT_MS;
      Exec(script, s, [Begin(w)] + [Acquire(w)] + [CreateAll(w)] + [Check(w)])
      == s.(tables := true, lock := Some(Lock(w, until)), workers := s.workers[w := Seeding(until, 0)])
  {
    var until := s.now + LOCK_TIMEOUT_MS;
    var run1, run2 := [Begin(w)], [Begin(w)] + [Acquire(w)];
    assert [] + [Begin(w)] == run1;
    Snoc(script, s, [], Begin(w));
    Snoc(script, s, run1, Acquire(w));
    assert Exec(script, s, run2)
        == s.(lock := Some(Lock(w, until)), workers := s.workers[w := Locked(until)]);
    Snoc(script, s, run2, CreateAll(w));
    assert Exec(script, s, run2 + [CreateAll(w)])
        == s.(tables := true, lock := Some(Lock(w, until)), workers := s.workers[w := Created(until)]);
    Snoc(script, s, run2 + [CreateAll(w)], Check(w));
  }

  lemma LastSteps(script: Script, s: State, w: Worker)
    requires script.Some? && w in s.workers && s.workers[w].Seeding? && s.workers[w].done == |script.value|
    requires Owns(s, w, s.workers[w].until)
    ensures Exec(script, s, [Commit(w)] + [Release(w)])
         == s.(users := s.users || InsertsUser(script), commits := s.commits + 1, lock := None,
               workers := s.workers[w := Returned])
  {
    var until := s.workers[w].until;
    var t := SetPhase(s, w, Ready(until)).(users := s.users || InsertsUser(script), commits := s.commits + 1);
    assert [] + [Commit(w)] == [Commit(w)];
    Snoc(script, s, [], Commit(w));
    assert Exec(script, s, [Commit(w)]) == t;
    Snoc(script, s, [Commit(w)], Release(w));
    assert Next(script, t, Release(w)) == SetPhase(t, w, Returned).(lock := None);
    assert s.workers[w := Ready(until)][w := Returned] == s.workers[w := Returned];
  }

  lemma TurnCommits(script: Script, s: State, w: Worker)
    requires script.Some? && !s.users && w !in s.workers && s.lock.None?
    ensures Exec(script, s, Turn(w, |script.value|))
         == s.(tables := true, users := InsertsUser(script), commits := s.commits + 1,
               workers := s.workers[w := Returned])
  {
    var n, first, last := |script.value|, [Begin(w)] + [Acquire(w)] + [CreateAll(w)] + [Check(w)], [Commit(w)] + [Release(w)];
    FirstSteps(script, s, w);
    var t := Exec(script, s, first);
    ExecJoins(script, s, first, Statements(w, n));
    StatementsRun(script, t, w, n);
    ExecJoins(script, s, first + Statements(w, n), last);
    LastSteps(script, Exec(script, t, Statements(w, n)), w);
    assert Turn(w, n) == first + Statements(w, n) + last;
  }

  predicate NoPause(run: seq<Step>) {
    forall step :: step in run ==> !step.Pass?
  }

  predicate AtStart(s: State) {
    s.now == 0 && forall w :: w in s.workers && Critical(s.workers[w]) ==> s.workers[w].until == LOCK_TIMEOUT_MS
  }

  lemma {:induction false} NoPauseAtStart(script: Script, run: seq<Step>)
    requires NoPause(run)
    ensures AtStart(Exec(script, NOTHING, run))
  {
    if run != [] {
      NoPauseAtStart(script, run[..|run| - 1]);
      assert run[|run| - 1] in run;
    }
  }

  lemma NoPausePunctual(script: Script, run: seq<Step>)
    requires NoPause(run)
    ensures Punctual(script, run)
  {
    forall i | 0 <= i <= |run| ensures InTime(Exec(script, NOTHING, run[..i])) {
      NoPauseAtStart(script, run[..i]);
    }
  }

  lemma {:induction false} TurnNoPause(w: Worker, n: nat)
    ensures NoPause(Statements(w, n)) && NoPause(Turn(w, n))
  {
    if n > 0 {
      TurnNoPause(w, n - 1);
    }
  }

  ghost predicate SeedsAtMostOnce(script: Script) {
    forall run :: Punctual(script, run) ==> Exec(script, NOTHING, run).commits <= 1
  }

  /**
   * However the workers interleave, fail and die, the seed script commits at most once, if and only if there is
   * no script or it inserts a user: a script that does not is committed again by every worker.
   */
  lemma SeedsAtMostOnceIff(script: Script)
    ensures SeedsAtMostOnce(script) <==> script.None? || InsertsUser(script)
  {
    if script.None? || InsertsUser(script) {
      forall run | Punctual(script, run) ensures Exec(script, NOTHING, run).commits <= 1 {
        RunSeeded(script, run);
      }
    } else {
      var n := |script.value|;
      var run := Turn(0, n) + Turn(1, n);
      TurnNoPause(0, n);
      TurnNoPause(1, n);
      NoPausePunctual(script, run);
      TurnCommits(script, NOTHING, 0);
      ExecJoins(script, NOTHING, Turn(0, n), Turn(1, n));
      TurnCommits(script, Exec(script, NOTHING, Turn(0, n)), 1);
      assert Exec(script, NOTHING, run).commits == 2;
    }
  }

  /** A worker that holds the lock longer than its timeout lets the seed commit twice. */
  lemma OutlastedLockSeedsTwice() returns (script: Script, run: seq<Step>)
    ensures InsertsUser(script) && !Punctual(script, run) && Exec(script, NOTHING, run).commits == 2
  {
    script := Some([true]);
    var start := [Begin(0)] + [Acquire(0)] + [CreateAll(0)] + [Check(0)];
    var late := start + [Pass(LOCK_TIMEOUT_MS)];
    Snoc(script, NOTHING, [], Begin(0));
    assert [] + [Begin(0)] == [Begin(0)];
    Snoc(script, NOTHING, [Begin(0)], Acquire(0));
    Snoc(script, NOTHING, [Begin(0)] + [Acquire(0)], CreateAll(0));
    Snoc(script, NOTHING, [Begin(0)] + [Acquire(0)] + [CreateAll(0)], Check(0));
    Snoc(script, NOTHING, start, Pass(LOCK_TIMEOUT_MS));
    var s := Exec(script, NOTHING, late);
    assert s.workers[0] == Seeding(LOCK_TIMEOUT_MS, 0) && !InTime(s);
    LateTurn(script, s);
    ExecJoins(script, NOTHING, late, Late());
    run := late + Late();
    assert run[..|late|] == late;
  }

  function Late(): seq<Step> {
    ([Begin(1)] + [Acquire(1)] + [CreateAll(1)] + [Check(1)]) + ([Execute(1)] + [Commit(1)] + [Execute(0)] + [Commit(0)])
  }

  /** The first worker's lock is over; the second one gets as far as its first statement. */
  lemma LateTurn(script: Script, s: State)
    requires script == Some([true]) && s.commits == 0 && !s.users && Free(s) && s.workers.Keys == {0}
    requires s.workers[0].Seeding? && s.workers[0].done == 0
    ensures Exec(script, s, Late()).commits == 2
  {
    var first := [Begin(1)] + [Acquire(1)] + [CreateAll(1)] + [Check(1)];
    assert [] + [Begin(1)] == [Begin(1)];
    Snoc(script, s, [], Begin(1));
    Snoc(script, s, [Begin(1)], Acquire(1));
    Snoc(script, s, [Begin(1)] + [Acquire(1)], CreateAll(1));
    Snoc(script, s, [Begin(1)] + [Acquire(1)] + [CreateAll(1)], Check(1));
    var t := Exec(script, s, first);
    assert t.workers[1].Seeding? && t.workers[1].done == 0 && t.workers[0] == s.workers[0];
    BothCommit(script, t);
    ExecJoins(script, s, first, [Execute(1)] + [Commit(1)] + [Execute(0)] + [Commit(0)]);
  }

  lemma BothCommit(script: Script, s: State)
    requires script == Some([true]) && s.commits == 0 && 0 in s.workers && 1 in s.workers
    requires forall w :: 0 <= w < 2 ==> s.workers[w].Seeding? && s.workers[w].done == 0
    ensures Exec(script, s, [Execute(1)] + [Commit(1)] + [Execute(0)] + [Commit(0)]).commits == 2
  {
    assert [] + [Execute(1)] == [Execute(1)];
    Snoc(script, s, [], Execute(1));
    Snoc(script, s, [Execute(1)], Commit(1));
    Snoc(script, s, [Execute(1)] + [Commit(1)], Execute(0));
    Snoc(script, s, [Execute(1)] + [Commit(1)] + [Execute(0)], Commit(0));
  }

  // ---------------------------------------------------------------- what each step does

  /** The worker's transaction commits: it has run all statements of the script. */
  predicate CommitsNow(script: Script, s: State, step: Step) {
    && step.Commit? && step.w in s.workers && s.workers[step.w].Seeding?
    && script.Some? && s.workers[step.w].done == |script.value|
  }

  /** Tables come by creating them under the lock, users by a commit of a script that inserts one or by signing up. */
  lemma DataExactly(script: Script, s: State, step: Step)
    ensures var t := Next(script, s, step);
      && (t.tables <==> s.tables || (step.CreateAll? && step.w in s.workers && s.workers[step.w].Locked?))
      && t.commits == s.commits + (if CommitsNow(script, s, step) then 1 else 0)
      && (t.users <==> s.users || (CommitsNow(script, s, step) && true in script.value) || (step.AddUser? && s.tables))
  {
  }

  /** The worker's own lock, not over yet. */
  predicate HasLock(s: State, w: Worker, until: int) {
    s.lock.Some? && s.lock.value.owner == w && s.lock.value.until == until && s.now < until
  }

  /** The worker leaves the lock block: at its end, or by an error anywhere inside. */
  predicate LeavesNow(s: State, step: Step) {
    && (step.Release? || step.Fail?) && step.w in s.workers
    && match s.workers[step.w]
       case Ready(_) => true
       case Locked(_) => step.Fail?
       case Created(_) => step.Fail?
       case Seeding(_, _) => step.Fail?
       case _ => false
  }

  /** The lock is taken for five minutes when nobody has it, and given back by its owner only. */
  lemma LockExactly(script: Script, s: State, step: Step)
    ensures var t := Next(script, s, step);
      t.lock
      == if step.Acquire? && step.w in s.workers && s.workers[step.w].Waiting?
            && (s.lock.None? || s.lock.value.until <= s.now)
         then Some(Lock(step.w, s.now + 300_000))
         else if LeavesNow(s, step) && HasLock(s, step.w, s.workers[step.w].until)
         then None
         else s.lock
  {
  }

  /** A worker waits two minutes at most, and what it does next depends on the script and on whether there are users. */
  lemma PhaseExactly(script: Script, s: State, step: Step, w: Worker)
    requires w in s.workers && !step.AddUser? && !step.Pass? && step.w == w
    ensures w in Next(script, s, step).workers
    ensures var (p, q) := (s.workers[w], Next(script, s, step).workers[w]);
      && (p.Waiting? && step.GiveUp? ==> q == if p.deadline <= s.now then Exited else p)
      && (p.Waiting? && q.Locked? ==> step.Acquire? && q.until == s.now + 300_000)
      && (p.Locked? && step.CreateAll? ==> q == Created(p.until))
      && (p.Created? && step.Check? ==> q == if script.Some? && !s.users then Seeding(p.until, 0) else Ready(p.until))
      && (p.Seeding? && step.Execute? ==>
            q == if script.Some? && p.done < |script.value| then Seeding(p.until, p.done + 1) else p)
      && (p.Seeding? && q.Ready? ==> CommitsNow(script, s, step) && q.until == p.until)
      && (p.Ready? && step.Release? ==> q == if HasLock(s, w, p.until) then Returned else Exited)
      && (q.Returned? ==> p.Returned? || (p.Ready? && step.Release? && HasLock(s, w, p.until)))
      && (step.Fail? ==> q == if p.Locked? || p.Created? || p.Seeding? || p.Ready? then Exited else p)
      && (step.Die? ==> q == if p.Returned? || p.Exited? then p else Dead)
  {
  }

  lemma BeginsWaiting(script: Script, s: State, w: Worker)
    requires w !in s.workers
    ensures Next(script, s, Begin(w)).workers == s.workers[w := Waiting(s.now + 120_000)]
  {
  }

  // ---------------------------------------------------------------- what other workers do meanwhile

  /** A step that is not worker w's own. */
  predicate Elsewhere(step: Step, w: Worker) {
    step.AddUser? || step.Pass? || step.w != w
  }

  predicate AllElsewhere(run: seq<Step>, w: Worker) {
    forall step :: step in run ==> Elsewhere(step, w)
  }

  /** Tables, users and commits stay, and time does not go back. */
  predicate Grows(s: State, t: State) {
    (s.tables ==> t.tables) && (s.users ==> t.users) && s.commits <= t.commits && s.now <= t.now
  }

  predicate SamePhase(s: State, t: State, w: Worker) {
    (w in s.workers <==> w in t.workers) && (w in s.workers ==> t.workers[w] == s.workers[w])
  }

  lemma StepGrows(script: Script, s: State, step: Step)
    ensures Grows(s, Next(script, s, step))
  {
  }

  lemma ElsewhereStep(script: Script, s: State, step: Step, w: Worker)
    requires Elsewhere(step, w)
    ensures SamePhase(s, Next(script, s, step), w)
  {
  }

  lemma {:induction false} RunGrows(script: Script, s: State, run: seq<Step>)
    ensures Grows(s, Exec(script, s, run))
  {
    if run != [] {
      RunGrows(script, s, run[..|run| - 1]);
      StepGrows(script, Exec(script, s, run[..|run| - 1]), run[|run| - 1]);
    }
  }

  /** The others do not change where a worker is. */
  lemma {:induction false} ElsewhereKeeps(script: Script, s: State, run: seq<Step>, w: Worker)
    requires AllElsewhere(run, w)
    ensures SamePhase(s, Exec(script, s, run), w)
  {
    if run != [] {
      ElsewhereKeeps(script, s, run[..|run| - 1], w);
      assert run[|run| - 1] in run;
      ElsewhereStep(script, Exec(script, s, run[..|run| - 1]), run[|run| - 1], w);
    }
  }

  // ---------------------------------------------------------------- the code

  /**
   * The database, the lock, the clock and all workers, and `create_tables` as one worker runs it. Between any
   * two of its own commands the other workers take any steps.
   */
  class Deployment {
    var now: int
    var lock: Option<Lock>
    var tables: bool
    var users: bool
    var commits: nat
    var workers: map<Worker, Phase>

    function View(): State
      reads this
    {
      State(now, lock, tables, users, commits, workers)
    }

    constructor ()
      ensures View() == NOTHING
    {
      now, lock, tables, users, commits, workers := 0, None, false, false, 0, map[];
    }

    method Apply(script: Script, step: Step)
      modifies this
      ensures View() == Next(script, old(View()), step)
    {
      var t := Next(script, View(), step);
      now, lock, tables, users, commits, workers := t.now, t.lock, t.tables, t.users, t.commits, t.workers;
    }

    /** Any number of steps of the other workers, of users who sign up, and of the clock. */
    method Meanwhile(w: Worker, script: Script) returns (ghost trace: seq<Step>)
      modifies this
      ensures View() == Exec(script, old(View()), trace) && AllElsewhere(trace, w)
      ensures SamePhase(old(View()), View(), w) && Grows(old(View()), View())
    {
      ghost var start := View();
      trace := [];
      var count: int := *;
      while count > 0
        invariant View() == Exec(script, start, trace) && AllElsewhere(trace, w)
      {
        var step: Step := *;
        if Elsewhere(step, w) {
          Snoc(script, start, trace, step);
          trace := trace + [step];
          Apply(script, step);
        }
        count := count - 1;
      }
      ElsewhereKeeps(script, start, trace, w);
      RunGrows(script, start, trace);
    }

    /** The same, and some time goes by. */
    method Wait(w: Worker, script: Script) returns (ghost trace: seq<Step>)
      modifies this
      ensures View() == Exec(script, old(View()), trace) && AllElsewhere(trace, w)
      ensures SamePhase(old(View()), View(), w) && now > old(now)
    {
      ghost var start := View();
      trace := Meanwhile(w, script);
      var ms: int := *;
      if ms < 1 {
        ms := 1;
      }
      Snoc(script, start, trace, Pass(ms));
      trace := trace + [Pass(ms)];
      now := now + ms;
    }

    /** Waits for the lock, for at most the blocking timeout. */
    method TakeLock(w: Worker, script: Script) returns (taken: bool, until: int, ghost trace: seq<Step>)
      requires w !in workers
      modifies this
      ensures View() == Exec(script, old(View()), trace) && w in workers
      ensures taken ==> workers[w] == Locked(until) && Owns(View(), w, until)
      ensures !taken ==> workers[w] == Exited && now >= old(now) + LOCK_BLOCKING_TIMEOUT_MS
    {
      ghost var start := View();
      var deadline := now + LOCK_BLOCKING_TIMEOUT_MS;
      Snoc(script, start, [], Begin(w));
      trace := [] + [Begin(w)];
      workers := workers[w := Waiting(deadline)];
      taken, until := false, 0;
      while !(lock.None? || lock.value.until <= now) && now < deadline
        invariant View() == Exec(script, start, trace)
        invariant w in workers && workers[w] == Waiting(deadline)
        decreases deadline - now
      {
        ghost var more := Wait(w, script);
        ExecJoins(script, start, trace, more);
        trace := trace + more;
      }
      if lock.None? || lock.value.until <= now {
        Snoc(script, start, trace, Acquire(w));
        trace := trace + [Acquire(w)];
        taken, until := true, now + LOCK_TIMEOUT_MS;
        lock := Some(Lock(w, until));
        workers := workers[w := Locked(until)];
      } else {
        Snoc(script, start, trace, GiveUp(w));
        trace := trace + [GiveUp(w)];
        workers := workers[w := Exited];
      }
    }

    /** Leaves the lock block: the lock goes back if it is still owned, and that decides about the exit. */
    method GiveLock(w: Worker, script: Script, until: int, fine: bool) returns (ok: bool)
      requires w in workers && Inside(workers[w]) && workers[w].until == until && (fine ==> workers[w].Ready?)
      modifies this`lock, this`workers
      ensures View() == Next(script, old(View()), if fine then Release(w) else Fail(w)) && w in workers
      ensures ok <==> fine && old(Owns(View(), w, until))
      ensures lock == if old(Owns(View(), w, until)) then None else old(lock)
      ensures workers[w] == if ok then Returned else Exited
    {
      var owned := lock == Some(Lock(w, until)) && now < until;
      if owned {
        lock := None;
      }
      ok := fine && owned;
      workers := workers[w := if ok then Returned else Exited];
    }

    /** The next statement of the script, if it does not fail. */
    method ExecuteStatement(w: Worker, script: Script, until: int, i: nat) returns (fine: bool, ghost trace: seq<Step>)
      requires script.Some? && i < |script.value| && w in workers && workers[w] == Seeding(until, i)
      modifies this
      ensures View() == Exec(script, old(View()), trace) && Commit(w) !in trace
      ensures w in workers && workers[w] == Seeding(until, if fine then i + 1 else i)
    {
      ghost var start := View();
      trace := Meanwhile(w, script);
      if * {
        return false, trace;
      }
      Snoc(script, start, trace, Execute(w));
      trace := trace + [Execute(w)];
      workers := workers[w := Seeding(until, i + 1)];
      fine := true;
    }

    /** The end of the transaction, which may fail as well. */
    method CommitSeed(w: Worker, script: Script, until: int, inserted: bool)
      returns (fine: bool, ghost trace: seq<Step>)
      requires script.Some? && w in workers && workers[w] == Seeding(until, |script.value|)
      requires inserted == InsertsUser(script)
      modifies this
      ensures View() == Exec(script, old(View()), trace) && (fine <==> Commit(w) in trace)
      ensures w in workers && workers[w] == if fine then Ready(until) else Seeding(until, |script.value|)
      ensures fine && inserted ==> users
    {
      ghost var start := View();
      trace := Meanwhile(w, script);
      if * {
        return false, trace;
      }
      Snoc(script, start, trace, Commit(w));
      trace := trace + [Commit(w)];
      users, commits := users || inserted, commits + 1;
      workers := workers[w := Ready(until)];
      fine := true;
    }

    /** All statements in one transaction; a statement that fails rolls everything back. */
    method ExecuteSqlFile(w: Worker, script: Script, until: int) returns (fine: bool, ghost trace: seq<Step>)
      requires script.Some? && w in workers && workers[w] == Seeding(until, 0)
      modifies this
      ensures View() == Exec(script, old(View()), trace) && w in workers
      ensures Inside(workers[w]) && workers[w].until == until
      ensures fine <==> Commit(w) in trace
      ensures fine ==> workers[w] == Ready(until) && (InsertsUser(script) ==> users)
    {
      ghost var start, more := View(), [];
      trace, fine := [], true;
      var inserted := false;
      for i := 0 to |script.value|
        invariant View() == Exec(script, start, trace) && Commit(w) !in trace
        invariant w in workers && workers[w] == Seeding(until, i)
        invariant inserted <==> true in script.value[..i]
      {
        fine, more := ExecuteStatement(w, script, until, i);
        ExecJoins(script, start, trace, more);
        trace := trace + more;
        if !fine {
          return;
        }
        assert script.value[..i + 1] == script.value[..i] + [script.value[i]];
        inserted := inserted || script.value[i];
      }
      assert script.value[..|script.value|] == script.value;
      fine, more := CommitSeed(w, script, until, inserted);
      ExecJoins(script, start, trace, more);
      trace := trace + more;
    }

    /** Whether there is a script to run: the file exists and no user does. */
    method NeedsSeed(w: Worker, script: Script, until: int) returns (needed: bool)
      requires w in workers && workers[w] == Created(until)
      modifies this`workers
      ensures View() == Next(script, old(View()), Check(w)) && w in workers
      ensures needed <==> script.Some? && !users
      ensures workers[w] == if needed then Seeding(until, 0) else Ready(until)
    {
      needed := script.Some? && !users;
      workers := workers[w := if needed then Seeding(until, 0) else Ready(until)];
    }

    method SeedDefaultDataIfEmpty(w: Worker, script: Script, until: int) returns (fine: bool, ghost trace: seq<Step>)
      requires w in workers && workers[w] == Created(until)
      modifies this
      ensures View() == Exec(script, old(View()), trace) && w in workers
      ensures Inside(workers[w]) && workers[w].until == until
      ensures Grows(old(View()), View())
      ensures fine ==> workers[w] == Ready(until) && (InsertsUser(script) ==> users)
    {
      ghost var start := View();
      trace := Meanwhile(w, script);
      if * {
        return false, trace;
      }
      Snoc(script, start, trace, Check(w));
      trace := trace + [Check(w)];
      var needed := NeedsSeed(w, script, until);
      fine := true;
      if needed {
        ghost var more;
        fine, more := ExecuteSqlFile(w, script, until);
        ExecJoins(script, start, trace, more);
        trace := trace + more;
      }
      RunGrows(script, start, trace);
    }

    /** What runs inside the lock: the tables, then the seed; either may fail. */
    method CreateAndSeed(w: Worker, script: Script, until: int) returns (fine: bool, ghost trace: seq<Step>)
      requires w in workers && workers[w] == Locked(until)
      modifies this
      ensures View() == Exec(script, old(View()), trace) && w in workers
      ensures Inside(workers[w]) && workers[w].until == until
      ensures fine ==> workers[w] == Ready(until) && tables && (InsertsUser(script) ==> users)
    {
      ghost var start := View();
      trace := Meanwhile(w, script);
      if * {
        return false, trace;
      }
      Snoc(script, start, trace, CreateAll(w));
      trace := trace + [CreateAll(w)];
      RunDdl(w, script, until);
      ghost var more;
      fine, more := SeedDefaultDataIfEmpty(w, script, until);
      ExecJoins(script, start, trace, more);
      trace := trace + more;
    }

    method RunDdl(w: Worker, script: Script, until: int)
      requires w in workers && workers[w] == Locked(until)
      modifies this`tables, this`workers
      ensures View() == Next(script, old(View()), CreateAll(w))
      ensures tables && w in workers && workers[w] == Created(until)
    {
      tables := true;
      workers := workers[w := Created(until)];
    }

    /**
     * `create_tables`: with any steps of others between its own commands, what happens is a run of the system,
     * and if the call returns, its data is there.
     */
    method CreateTables(w: Worker, script: Script) returns (ok: bool, ghost trace: seq<Step>)
      requires w !in workers
      modifies this
      ensures View() == Exec(script, old(View()), trace)
      ensures w in workers && workers[w] == if ok then Returned else Exited
      ensures ok ==> tables && (InsertsUser(script) ==> users)
    {
      ghost var start := View();
      ghost var more;
      var taken, until;
      taken, until, trace := TakeLock(w, script);
      if !taken {
        return false, trace;
      }
      var fine;
      fine, more := CreateAndSeed(w, script, until);
      ExecJoins(script, start, trace, more);
      trace := trace + more;
      more := Meanwhile(w, script);
      ExecJoins(script, start, trace, more);
      trace := trace + more;
      Snoc(script, start, trace, if fine then Release(w) else Fail(w));
      trace := trace + [if fine then Release(w) else Fail(w)];
      ok := GiveLock(w, script, until, fine);
    }
  }
}

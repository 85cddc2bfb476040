/**
 * The database-backed beat scheduler: entries in memory, names waiting to be saved, and the two members that
 * call each other, `sync` and `schedule`. The clock, edits by others and database failures are arbitrary.
 */
module Scheduler {
  import opened Options
  import opened Timezone

  type Name = string

  const YEAR_MS: int := 365 * 24 * 60 * 60 * 1000

  /**
   * What the table holds of a task. A row is `valid` if its schedule and its arguments can be read; `other` is
   * every column that saving leaves alone.
   */
  datatype Row = Row(enabled: bool, lastRun: Option<int>, runs: int, start: Option<int>, oneOff: bool, valid: bool,
                     other: int)

  /** An entry in memory; saving one with `noChanges` publishes nothing. */
  datatype Entry = Entry(lastRun: int, runs: int, enabled: bool, start: Option<int>, oneOff: bool, noChanges: bool)

  datatype Result = Fine | DatabaseFailure | NoSchedule

  /** Not due, and to be asked again after so many seconds; or as the schedule says. */
  datatype Due = In(seconds: int) | AskSchedule

  /** The entry of an enabled row; one that cannot be read is disabled in memory only. */
  function Loaded(row: Row, now: int): Entry {
    Entry(if row.lastRun.Some? then row.lastRun.value
          else if row.start.Some? then row.start.value - YEAR_MS else now,
          row.runs, row.valid, row.start, row.oneOff, !row.valid)
  }

  predicate Started(entry: Entry, now: int) {
    entry.start.None? || entry.start.value <= now
  }

  /** A one-off task that has run. */
  predicate Spent(entry: Entry, now: int) {
    entry.enabled && Started(entry, now) && entry.oneOff && entry.runs > 0
  }

  /** Whether it is due is left to the schedule. */
  predicate Ready(entry: Entry, now: int) {
    entry.enabled && Started(entry, now) && !(entry.oneOff && entry.runs > 0)
  }

  function Retired(entry: Entry): Entry {
    entry.(enabled := false, runs := 0, noChanges := false)
  }

  /** The enabled rows, as entries. */
  function LoadAll(db: map<Name, Row>, now: int): map<Name, Entry> {
    map n | n in db && db[n].enabled :: Loaded(db[n], now)
  }

  function SaveRow(row: Row, entry: Entry): Row {
    row.(lastRun := Some(entry.lastRun), runs := entry.runs)
  }

  /** One row saved, perhaps with its `enabled` as well; a missing row is skipped. */
  function SaveOne(db: map<Name, Row>, name: Name, entry: Entry, withEnabled: bool): map<Name, Row> {
    if name !in db then db
    else
      var row := SaveRow(db[name], entry);
      db[name := if withEnabled then row.(enabled := entry.enabled) else row]
  }

  /** The table after the entries of these names are saved; a name without a row is skipped. */
  function SaveAll(db: map<Name, Row>, entries: map<Name, Entry>, names: set<Name>): map<Name, Row> {
    map n | n in db :: if n in names && n in entries then SaveRow(db[n], entries[n]) else db[n]
  }

  predicate SameTask(a: Row, b: Row) {
    a == b.(lastRun := a.lastRun, runs := a.runs)
  }

  /** Same rows, and only counters of these names may differ. */
  predicate OnlyCounters(was: map<Name, Row>, db: map<Name, Row>, names: set<Name>) {
    && db.Keys == was.Keys
    && forall n :: n in db ==> SameTask(was[n], db[n]) && (n !in names ==> db[n] == was[n])
  }

  function Lost(name: Option<Name>): set<Name> {
    if name.Some? then {name.value} else {}
  }

  /**
   * How far draining `names` has come without a reload: some names are saved, some have no entry, the one whose
   * saving failed is lost, and the rest is still to do.
   */
  predicate Drained(was: map<Name, Row>, db: map<Name, Row>, entries: map<Name, Entry>, names: set<Name>,
                    rest: set<Name>, missing: set<Name>, saved: set<Name>, lost: Option<Name>)
  {
    && rest + missing == names - saved - Lost(lost)
    && saved + Lost(lost) <= names * entries.Keys && saved !! Lost(lost) && missing !! entries.Keys
    && db == SaveAll(was, entries, saved)
  }

  lemma DrainedRound(was: map<Name, Row>, before: map<Name, Row>, db: map<Name, Row>, entries: map<Name, Entry>,
                     names: set<Name>, rest: set<Name>, missing: set<Name>, saved: set<Name>, name: Name, fine: bool)
    requires Drained(was, before, entries, names, rest, missing, saved, None) && name in rest
    requires !fine ==> name in entries
    requires db == if fine && name in entries then SaveOne(before, name, entries[name], false) else before
    ensures Drained(was, db, entries, names, rest - {name},
                    if fine && name !in entries then missing + {name} else missing,
                    if fine && name in entries then saved + {name} else saved,
                    if fine then None else Some(name))
  {
    assert name in entries ==> name !in saved && name !in missing;
    assert name in entries ==> (rest - {name}) + missing == (rest + missing) - {name};
  }

  lemma DrainedAll(was: map<Name, Row>, db: map<Name, Row>, entries: map<Name, Entry>, names: set<Name>,
                   missing: set<Name>, saved: set<Name>)
    requires Drained(was, db, entries, names, {}, missing, saved, None)
    ensures saved == names * entries.Keys && missing == names - entries.Keys && db == SaveAll(was, entries, names)
  {
    forall n | n in names && n in entries ensures n in saved {
      assert n !in missing;
    }
    forall n | n in missing ensures n in names && n !in entries {
      assert n in {} + missing;
    }
  }

  lemma SmallerSet(a: set<Name>, b: set<Name>)
    ensures a <= b ==> |a| <= |b|
    decreases b
  {
    if a <= b && b != {} {
      var x :| x in b;
      SmallerSet(a - {x}, b - {x});
      assert x !in a ==> a - {x} == a;
    }
  }

  lemma PoppedIsSmaller(rest: set<Name>, name: Name, names: set<Name>)
    requires name in rest && rest <= names
    ensures |rest - {name}| < |names|
  {
    SmallerSet(rest, names);
  }

  lemma HasName(names: set<Name>)
    ensures names != {} ==> exists n :: n in names
  {
    assert (forall n: Name :: n !in names) ==> names == {};
  }

  lemma StillOnlyCounters(was: map<Name, Row>, db: map<Name, Row>, later: map<Name, Row>, some: set<Name>,
                          names: set<Name>)
    requires OnlyCounters(was, db, names) && OnlyCounters(db, later, some) && some <= names
    ensures OnlyCounters(was, later, names)
  {
  }

  // ---------------------------------------------------------------- no counted run is lost

  /** The table, the schedule in memory, and the names whose entries are not saved yet. */
  datatype Book = Book(db: map<Name, Row>, entries: Option<map<Name, Entry>>, dirty: set<Name>)

  datatype Beat =
    | Run(name: Name, asked: int, now: int)
    | Retire(name: Name, now: int)
    | Reload(now: int)
    | SaveDirty

  predicate Has(b: Book, name: Name) {
    b.entries.Some? && name in b.entries.value
  }

  /** When asked, `is_due` left it to the schedule, so that the run may be reserved. */
  predicate Counts(b: Book, beat: Beat, name: Name) {
    beat.Run? && beat.name == name && Has(b, name) && Ready(b.entries.value[name], beat.asked)
  }

  /** `is_due` finds a one-off task that has run. */
  predicate Retires(b: Book, beat: Beat, name: Name) {
    beat.Retire? && beat.name == name && Has(b, name) && Spent(b.entries.value[name], beat.now)
  }

  function Saved(b: Book): Book {
    if b.entries.None? then b
    else Book(SaveAll(b.db, b.entries.value, b.dirty), b.entries, b.dirty - b.entries.value.Keys)
  }

  /** One more run of an entry. */
  function CountRun(b: Book, name: Name, now: int): Book
    requires Has(b, name)
  {
    var entry := b.entries.value[name];
    b.(entries := Some(b.entries.value[name := entry.(lastRun := now, runs := entry.runs + 1, noChanges := true)]),
       dirty := b.dirty + {name})
  }

  /** A one-off task is disabled, in memory and in the table, and counts anew. */
  function RetireEntry(b: Book, name: Name): Book
    requires Has(b, name)
  {
    var entry := Retired(b.entries.value[name]);
    b.(db := SaveOne(b.db, name, entry, true), entries := Some(b.entries.value[name := entry]))
  }

  /**
   * A run of a task, the end of a one-off task, a reload, which saves first, and saving alone: none fails, and
   * no reload is inside another.
   */
  function BeatNext(b: Book, beat: Beat): Book {
    match beat
    case Run(n, _, now) => if Counts(b, beat, n) then CountRun(b, n, now) else b
    case Retire(n, _) => if Retires(b, beat, n) then RetireEntry(b, n) else b
    case Reload(now) => Saved(b).(entries := Some(LoadAll(Saved(b).db, now)))
    case SaveDirty => Saved(b)
  }

  function Beats(start: Book, run: seq<Beat>): Book {
    if run == [] then start else BeatNext(Beats(start, run[..|run| - 1]), run[|run| - 1])
  }

  /** How often this task ran. */
  function Ran(start: Book, run: seq<Beat>, name: Name): nat {
    if run == [] then 0
    else
      var front, beat := run[..|run| - 1], run[|run| - 1];
      Ran(start, front, name) + if Counts(Beats(start, front), beat, name) then 1 else 0
  }

  /** Nothing has been loaded yet. */
  predicate Unread(b: Book) {
    b.entries.None? && b.dirty == {}
  }

  /** Entries, and rows that are not dirty, show these totals. */
  predicate Tallied(b: Book, total: map<Name, int>) {
    && b.db.Keys == total.Keys
    && (b.entries.None? ==> b.dirty == {})
    && (b.entries.Some? ==> b.dirty <= b.entries.value.Keys <= b.db.Keys)
    && (b.entries.Some? ==> forall n :: n in b.entries.value ==> b.entries.value[n].runs == total[n])
    && (forall n :: n in b.db && n !in b.dirty ==> b.db[n].runs == total[n])
  }

  /** The runs that a task should show, if it showed `total` before. */
  function Shown(b: Book, beat: Beat, name: Name, total: int): int {
    if Retires(b, beat, name) then 0 else total + if Counts(b, beat, name) then 1 else 0
  }

  function Total(start: Book, run: seq<Beat>, name: Name): int
    requires name in start.db
  {
    if run == [] then start.db[name].runs
    else
      var front, beat := run[..|run| - 1], run[|run| - 1];
      Shown(Beats(start, front), beat, name, Total(start, front, name))
  }

  function Totals(start: Book, run: seq<Beat>): map<Name, int> {
    map n | n in start.db :: Total(start, run, n)
  }

  lemma BeatTallied(b: Book, total: map<Name, int>, beat: Beat)
    requires Tallied(b, total)
    ensures Tallied(BeatNext(b, beat), map n | n in total :: Shown(b, beat, n, total[n]))
  {
  }

  lemma {:induction false} RunTallied(start: Book, run: seq<Beat>)
    requires Unread(start)
    ensures Tallied(Beats(start, run), Totals(start, run))
  {
    if run != [] {
      var front, beat := run[..|run| - 1], run[|run| - 1];
      RunTallied(start, front);
      BeatTallied(Beats(start, front), Totals(start, front), beat);
      assert Totals(start, run)
          == map n | n in Totals(start, front) :: Shown(Beats(start, front), beat, n, Totals(start, front)[n]);
    }
  }

  /** Step i of the run ends this one-off task. */
  predicate RetiresAt(start: Book, run: seq<Beat>, i: nat, name: Name) {
    i < |run| && Retires(Beats(start, run[..i]), run[i], name)
  }

  /** The first k steps of the run end with the last end of this task, if it ever ended. */
  predicate LastRetired(start: Book, run: seq<Beat>, k: nat, name: Name) {
    && k <= |run| && (k > 0 ==> RetiresAt(start, run, k - 1, name))
    && forall i :: k <= i < |run| ==> !RetiresAt(start, run, i, name)
  }

  lemma {:induction false} SomeLastRetired(start: Book, run: seq<Beat>, name: Name)
    ensures exists k :: LastRetired(start, run, k, name)
  {
    if run == [] {
      assert LastRetired(start, run, 0, name);
    } else if RetiresAt(start, run, |run| - 1, name) {
      assert LastRetired(start, run, |run|, name);
    } else {
      var front := run[..|run| - 1];
      SomeLastRetired(start, front, name);
      var k :| LastRetired(start, front, k, name);
      forall i | 0 <= i < |front| ensures RetiresAt(start, front, i, name) == RetiresAt(start, run, i, name) {
        assert front[..i] == run[..i];
      }
      assert LastRetired(start, run, k, name);
    }
  }

  lemma {:induction false} TotalSince(start: Book, run: seq<Beat>, k: nat, name: Name)
    requires name in start.db && LastRetired(start, run, k, name)
    ensures Total(start, run, name)
         == (if k == 0 then start.db[name].runs else 0) + Ran(start, run, name) - Ran(start, run[..k], name)
  {
    if k == |run| {
      assert run[..k] == run;
    } else {
      var front := run[..|run| - 1];
      forall i | 0 <= i < |front| ensures RetiresAt(start, front, i, name) == RetiresAt(start, run, i, name) {
        assert front[..i] == run[..i];
      }
      assert !RetiresAt(start, run, |run| - 1, name);
      TotalSince(start, front, k, name);
      assert front[..k] == run[..k];
    }
  }

  /**
   * After any run, saving leaves every row with all runs since its task last ended as a one-off task, or with
   * the runs it had and all since if it never did.
   */
  lemma NoRunLost(start: Book, run: seq<Beat>, k: nat, name: Name)
    requires Unread(start) && name in start.db && LastRetired(start, run, k, name)
    ensures name in Saved(Beats(start, run)).db
    ensures Saved(Beats(start, run)).db[name].runs
         == (if k == 0 then start.db[name].runs else 0) + Ran(start, run, name) - Ran(start, run[..k], name)
  {
    RunTallied(start, run);
    TotalSince(start, run, k, name);
  }

  /** What never changes in a row, and what an entry and its row have in common. */
  predicate Known(b: Book, was: map<Name, Row>) {
    && b.db.Keys == was.Keys
    && (forall n :: n in b.db ==> b.db[n].oneOff == was[n].oneOff)
    && (b.entries.Some? ==> forall n :: n in b.entries.value && n in b.db ==> Shows(b.entries.value[n], b.db[n]))
  }

  predicate Shows(entry: Entry, row: Row) {
    && entry.start == row.start && entry.oneOff == row.oneOff
    && entry.enabled == (row.enabled && row.valid)
  }

  lemma BeatKnown(b: Book, was: map<Name, Row>, beat: Beat)
    requires Known(b, was)
    ensures Known(BeatNext(b, beat), was)
  {
  }

  lemma {:induction false} RunKnown(start: Book, run: seq<Beat>)
    requires Unread(start)
    ensures Known(Beats(start, run), start.db)
  {
    if run != [] {
      RunKnown(start, run[..|run| - 1]);
      BeatKnown(Beats(start, run[..|run| - 1]), start.db, run[|run| - 1]);
    }
  }

  /** A task that is no one-off task never ends, so it shows the runs it had and all since. */
  lemma OthersNeverRetire(start: Book, run: seq<Beat>, name: Name)
    requires Unread(start) && name in start.db && !start.db[name].oneOff
    ensures LastRetired(start, run, 0, name)
  {
    forall i | 0 <= i < |run| ensures !RetiresAt(start, run, i, name) {
      RunKnown(start, run[..i]);
      RunTallied(start, run[..i]);
    }
  }

  /** How often a one-off task may still run: once, or more often only if its row shows fewer than no runs. */
  function Spare(row: Row): nat {
    if row.runs > 0 then 0 else 1 - row.runs
  }

  lemma OneOffBeat(b: Book, beat: Beat, name: Name, first: int, ran: nat, total: int)
    requires name in b.db && b.db[name].oneOff
    requires Has(b, name) ==> b.entries.value[name].runs == total && Shows(b.entries.value[name], b.db[name])
    requires b.db[name].enabled ==> total == first + ran
    ensures name in BeatNext(b, beat).db
    ensures BeatNext(b, beat).db[name].enabled ==>
      b.db[name].enabled && Shown(b, beat, name, total) == first + ran + if Counts(b, beat, name) then 1 else 0
    ensures Counts(b, beat, name) ==> first + ran <= 0
  {
  }

  lemma {:induction false} OneOffCount(start: Book, run: seq<Beat>, name: Name)
    requires Unread(start) && name in start.db && start.db[name].oneOff
    ensures Ran(start, run, name) <= Spare(start.db[name])
    ensures name in Beats(start, run).db
    ensures Beats(start, run).db[name].enabled ==>
      Total(start, run, name) == start.db[name].runs + Ran(start, run, name)
  {
    if run != [] {
      var front := run[..|run| - 1];
      OneOffCount(start, front, name);
      RunKnown(start, front);
      RunTallied(start, front);
      OneOffBeat(Beats(start, front), run[|run| - 1], name, start.db[name].runs, Ran(start, front, name),
                 Total(start, front, name));
    }
  }

  /** A one-off task whose row shows no run yet runs at most once, and one that has run does not run again. */
  lemma OneOffRunsOnce(start: Book, run: seq<Beat>, name: Name)
    requires Unread(start) && name in start.db && start.db[name].oneOff && start.db[name].runs >= 0
    ensures Ran(start, run, name) <= if start.db[name].runs == 0 then 1 else 0
  {
    OneOffCount(start, run, name);
  }

  /** An entry that is not dirty shows its row: the runs, and the last run if there was one. */
  predicate Synced(b: Book) {
    b.entries.Some? ==> forall n :: n in b.entries.value && n in b.db && n !in b.dirty ==>
      && b.db[n].runs == b.entries.value[n].runs
      && (b.db[n].lastRun.Some? ==> b.db[n].lastRun.value == b.entries.value[n].lastRun)
  }

  lemma BeatSynced(b: Book, beat: Beat)
    requires Synced(b)
    ensures Synced(BeatNext(b, beat))
  {
  }

  lemma {:induction false} RunSynced(start: Book, run: seq<Beat>)
    requires Unread(start)
    ensures Synced(Beats(start, run))
  {
    if run != [] {
      RunSynced(start, run[..|run| - 1]);
      BeatSynced(Beats(start, run[..|run| - 1]), run[|run| - 1]);
    }
  }

  /** Equal but for the mark that keeps a saving unpublished. */
  predicate SameEntry(a: Entry, b: Entry) {
    a == b.(noChanges := a.noChanges)
  }

  /** After any run a reload gives back every entry whose row is there and enabled, as far as it ever ran. */
  lemma ReloadForgetsNothing(start: Book, run: seq<Beat>, now: int, name: Name)
    requires Unread(start)
    requires var b := Beats(start, run); Has(b, name) && name in b.db && b.db[name].enabled
    ensures var b := Beats(start, run);
      var c := BeatNext(b, Reload(now));
      && name in c.entries.value
      && SameEntry(c.entries.value[name].(lastRun := b.entries.value[name].lastRun), b.entries.value[name])
      && (name in b.dirty || b.db[name].lastRun.Some? ==> SameEntry(c.entries.value[name], b.entries.value[name]))
  {
    RunSynced(start, run);
    RunKnown(start, run);
  }

  // ---------------------------------------------------------------- what each step does to one task

  /** A run is counted when, at the time of asking, the task was enabled, begun, and not a one-off that had run. */
  predicate RunsNow(b: Book, beat: Beat, name: Name) {
    && beat.Run? && beat.name == name && b.entries.Some? && name in b.entries.value
    && var e := b.entries.value[name];
       e.enabled && (e.start.Some? ==> e.start.value <= beat.asked) && (e.oneOff ==> e.runs <= 0)
  }

  /** A one-off task that has run ends when it is asked for again. */
  predicate EndsNow(b: Book, beat: Beat, name: Name) {
    && beat.Retire? && beat.name == name && b.entries.Some? && name in b.entries.value
    && var e := b.entries.value[name];
       e.enabled && (e.start.Some? ==> e.start.value <= beat.now) && e.oneOff && e.runs > 0
  }

  predicate SavesNow(b: Book, beat: Beat, name: Name) {
    (beat.Reload? || beat.SaveDirty?) && name in b.dirty && b.entries.Some? && name in b.entries.value
  }

  /** What becomes of an entry: a run counts and sets its time, the end of a one-off task disables it at no runs. */
  lemma EntryExactly(b: Book, beat: Beat, name: Name)
    requires b.entries.Some? && name in b.entries.value && !beat.Reload?
    ensures var (c, e) := (BeatNext(b, beat), b.entries.value[name]);
      && c.entries.Some? && name in c.entries.value
      && c.entries.value[name]
         == if RunsNow(b, beat, name) then Entry(beat.now, e.runs + 1, e.enabled, e.start, e.oneOff, true)
            else if EndsNow(b, beat, name) then Entry(e.lastRun, 0, false, e.start, e.oneOff, false)
            else e
  {
  }

  /** After a reload the entries are the enabled rows, read anew. */
  lemma ReloadExactly(b: Book, now: int, name: Name)
    requires b.entries.None? ==> b.dirty == {}
    ensures var c := BeatNext(b, Reload(now));
      && c.entries.Some?
      && (name in c.entries.value <==> name in b.db && b.db[name].enabled)
      && (name in c.entries.value ==>
            var (e, row) := (c.entries.value[name], c.db[name]);
            && e.runs == row.runs && e.start == row.start && e.oneOff == row.oneOff
            && e.enabled == row.valid && e.noChanges == !row.valid
            && (row.lastRun.Some? ==> e.lastRun == row.lastRun.value)
            && (row.lastRun.None? && row.start.Some? ==> e.lastRun == row.start.value - 31_536_000_000)
            && (row.lastRun.None? && row.start.None? ==> e.lastRun == now))
  {
  }

  /** What becomes of a row: saving writes the last run and the runs, and the end of a one-off task `enabled` too. */
  lemma RowExactly(b: Book, beat: Beat, name: Name)
    requires name in b.db
    ensures var (c, row) := (BeatNext(b, beat), b.db[name]);
      && name in c.db
      && c.db[name]
         == if SavesNow(b, beat, name)
            then row.(lastRun := Some(b.entries.value[name].lastRun), runs := b.entries.value[name].runs)
            else if EndsNow(b, beat, name)
            then row.(lastRun := Some(b.entries.value[name].lastRun), runs := 0, enabled := false)
            else row
  {
  }

  /** A name is dirty from a run on until it is saved. */
  lemma DirtyExactly(b: Book, beat: Beat, name: Name)
    ensures name in BeatNext(b, beat).dirty <==>
      RunsNow(b, beat, name) || (name in b.dirty && !SavesNow(b, beat, name))
  {
  }

  // ---------------------------------------------------------------- noticing edits

  /** `schedule_changed`: the answer, the time it remembers, and what Redis holds afterwards. */
  function Change(last: Option<int>, published: Option<int>, now: int): (bool, Option<int>, Option<int>) {
    match published
    case None => (false, last, Some(WholeSeconds(now)))
    case Some(stamp) => (last.Some? && stamp > last.value, Some(now), published)
  }

  /** Only a published time that is later than the last check is a change, and never at the first check. */
  lemma ChangeExactly(last: Option<int>, published: Option<int>, now: int)
    ensures var (changed, remembered, later) := Change(last, published, now);
      && (changed <==> published.Some? && last.Some? && last.value < published.value)
      && remembered == (if published.Some? then Some(now) else last)
      && later.Some? && (published.Some? ==> later == published)
      && (published.None? ==> now - 1000 < later.value <= now && later.value % 1000 == 0)
  {
    LessThanASecond(now);
  }

  /** Some of these checks, one after the other, report a change. */
  predicate Notices(last: int, stamp: int, checks: seq<int>)
    decreases checks
  {
    checks != [] && (Change(Some(last), Some(stamp), checks[0]).0 || Notices(checks[0], stamp, checks[1..]))
  }

  lemma {:induction false} QuietAfter(last: int, stamp: int, checks: seq<int>)
    requires stamp <= last && forall i :: 0 <= i < |checks| ==> last <= checks[i]
    requires forall i, j :: 0 <= i < j < |checks| ==> checks[i] <= checks[j]
    ensures !Notices(last, stamp, checks)
    decreases checks
  {
    if checks != [] {
      QuietAfter(checks[0], stamp, checks[1..]);
    }
  }

  /**
   * An edit made after the last check is noticed by later checks if and only if that check came before the
   * whole second of the edit; otherwise no later check ever reports it.
   */
  lemma EditNoticedIff(last: int, edit: int, checks: seq<int>)
    requires last <= edit && checks != [] && forall i :: 0 <= i < |checks| ==> edit <= checks[i]
    requires forall i, j :: 0 <= i < j < |checks| ==> checks[i] <= checks[j]
    ensures Notices(last, WholeSeconds(edit), checks) <==> last < WholeSeconds(edit)
    ensures !Notices(checks[0], WholeSeconds(edit), checks[1..])
  {
    LessThanASecond(edit);
    QuietAfter(checks[0], WholeSeconds(edit), checks[1..]);
  }

  // ---------------------------------------------------------------- the scheduler

  class DatabaseScheduler {
    var dirty: set<Name>
    var entries: Option<map<Name, Entry>>
    var lastUpdate: Option<int>
    var initialRead: bool
    var heapInvalidated: bool
    /** The table of tasks, and the `last_update` key in Redis. */
    var db: map<Name, Row>
    var published: Option<int>
    /** How often the schedule was reloaded, or should have been, and how often the database failed. */
    ghost var reloads: nat
    ghost var failures: nat

    constructor (db: map<Name, Row>, published: Option<int>)
      ensures this.db == db && dirty == {} && entries == None && initialRead
    {
      this.db, this.published := db, published;
      dirty, entries, lastUpdate, initialRead, heapInvalidated := {}, None, None, true, false;
      reloads, failures := 0, 0;
    }

    /** Nothing was reloaded and the database did not fail, compared with these counts. */
    ghost predicate Quiet(reloadsBefore: nat, failuresBefore: nat)
      reads this
    {
      reloads == reloadsBefore && failures == failuresBefore
    }

    function Contents(): Book
      reads this
    {
      Book(db, entries, dirty)
    }

    method ScheduleChanged() returns (changed: bool, ghost seen: Option<int>, ghost now: int)
      modifies this`lastUpdate, this`published
      ensures (changed, lastUpdate, published) == Change(old(lastUpdate), seen, now)
    {
      if * {
        var edit: int := *;
        published := Some(WholeSeconds(edit));
      }
      var clock: int := *;
      seen, now := published, clock;
      if published.None? {
        published := Some(WholeSeconds(clock));
        return false, seen, now;
      }
      changed := lastUpdate.Some? && published.value > lastUpdate.value;
      lastUpdate := Some(clock);
    }

    /** Writes an entry to its row, if there is one; the change is published unless the entry says not to. */
    method Save(name: Name, entry: Entry, withEnabled: bool) returns (result: Result, ghost now: int)
      modifies this`db, this`published, this`failures
      ensures result == Fine || result == DatabaseFailure
      ensures result == Fine ==> failures == old(failures) && db == SaveOne(old(db), name, entry, withEnabled)
      ensures result != Fine ==> failures == old(failures) + 1 && db == old(db)
      ensures published == if result == Fine && name in old(db) && !entry.noChanges then Some(WholeSeconds(now))
                           else old(published)
    {
      var clock: int := *;
      now := clock;
      if * {
        failures := failures + 1;
        return DatabaseFailure, now;
      }
      if name in db {
        var row := SaveRow(db[name], entry);
        if withEnabled {
          row := row.(enabled := entry.enabled);
        }
        db := db[name := row];
        if !entry.noChanges {
          published := Some(WholeSeconds(clock));
        }
      }
      result := Fine;
    }

    /**
     * `is_due`, up to asking the schedule itself. A one-off task that has run is disabled, counts anew and is
     * saved; nothing else changes. The entry is the one in the schedule, or one from before a reload.
     */
    method IsDue(name: Name, entry: Entry, current: bool)
      returns (result: Result, due: Due, after: Entry, ghost now: int, ghost saved: int)
      requires current ==> Has(Contents(), name) && entries.value[name] == entry
      modifies this`entries, this`db, this`published, this`failures
      ensures !entry.enabled ==> due == In(5)
      ensures entry.enabled && entry.start.Some? && now < entry.start.value ==>
        due.In? && entry.start.value <= now + 1000 * due.seconds < entry.start.value + 1000
      ensures entry.enabled && (entry.start.None? || entry.start.value <= now) ==>
        due == if entry.oneOff && entry.runs > 0 then In(1000000000) else AskSchedule
      // only a one-off task that has run is changed
      ensures var ends :=
          entry.enabled && (entry.start.None? || entry.start.value <= now) && entry.oneOff && entry.runs > 0;
        && after == (if ends then entry.(enabled := false, runs := 0, noChanges := false) else entry)
        && (result == Fine || (result == DatabaseFailure && ends))
        && db == (if result == Fine && ends then SaveOne(old(db), name, after, true) else old(db))
        && published == (if result == Fine && ends && name in old(db) then Some(WholeSeconds(saved)) else old(published))
      ensures entries == if current then Some(old(entries).value[name := after]) else old(entries)
      ensures failures == old(failures) + (if result == Fine then 0 else 1)
      ensures result == Fine && current ==> Contents() == BeatNext(old(Contents()), Retire(name, now))
      ensures due == AskSchedule <==> Ready(entry, now)
    {
      var clock: int := *;
      now, saved, result, after := clock, 0, Fine, entry;
      if !entry.enabled {
        due := In(5);
      } else if entry.start.Some? && clock < entry.start.value {
        due := In((entry.start.value - clock + 999) / 1000);
      } else if entry.oneOff && entry.runs > 0 {
        due := In(1000000000);
        after := Retired(entry);
        if current {
          entries := Some(entries.value[name := after]);
        }
        result, saved := Save(name, after, true);
      } else {
        due := AskSchedule;
      }
      assert current && !Spent(entry, now) ==> entries.value == old(entries).value[name := entry];
    }

    method GetAllTaskSchedulers() returns (result: Result, all: map<Name, Entry>, ghost now: int)
      modifies this`failures
      ensures result == Fine || result == DatabaseFailure
      ensures result == Fine ==> failures == old(failures) && all == LoadAll(db, now)
      ensures result != Fine ==> failures == old(failures) + 1
    {
      var clock: int := *;
      now, all := clock, map[];
      if * {
        failures := failures + 1;
        return DatabaseFailure, all, now;
      }
      all := LoadAll(db, clock);
      result := Fine;
    }

    /**
     * The `schedule` property. Whatever happens, it ends, nests at most one `sync` per dirty name, makes no name
     * dirty and writes only counters of dirty names. A reload without a nested one saves every dirty entry
     * first, so that nothing in memory is lost.
     */
    method Schedule() returns (result: Result, ghost depth: nat, ghost now: int)
      modifies this
      ensures depth <= |old(dirty)| + 1
      ensures dirty <= old(dirty) && OnlyCounters(old(db), db, old(dirty))
      ensures reloads >= old(reloads) && failures >= old(failures) && !initialRead
      ensures old(entries).Some? ==> entries.Some? && result != NoSchedule
      ensures result == Fine && reloads > old(reloads) ==> entries == Some(LoadAll(db, now))
      ensures result == Fine && reloads > old(reloads) && !old(initialRead) ==> heapInvalidated
      ensures old(initialRead) ==> reloads > old(reloads)
      ensures reloads == old(reloads) ==>
        result == Fine && depth == 0 && dirty == old(dirty) && db == old(db) && entries == old(entries)
        && failures == old(failures) && heapInvalidated == old(heapInvalidated)
      ensures Quiet(old(reloads) + 1, old(failures)) && old(entries.Some? || dirty == {}) ==>
        result == Fine && Contents() == BeatNext(old(Contents()), Reload(now))
      decreases dirty, 4
    {
      var initial, update := initialRead, initialRead;
      depth, now := 0, 0;
      if initialRead {
        initialRead := false;
      } else {
        ghost var seen, clock;
        update, seen, clock := ScheduleChanged();
      }
      result := Fine;
      if update {
        result, depth, now := ReloadAll(initial);
      }
    }

    /** What `schedule` does when it is read for the first time or has changed. */
    method ReloadAll(initial: bool) returns (result: Result, ghost depth: nat, ghost now: int)
      requires !initialRead
      modifies this
      ensures depth <= |old(dirty)| + 1
      ensures dirty <= old(dirty) && OnlyCounters(old(db), db, old(dirty))
      ensures reloads > old(reloads) && failures >= old(failures) && !initialRead
      ensures old(entries).Some? ==> entries.Some? && result != NoSchedule
      ensures result == Fine ==> entries == Some(LoadAll(db, now)) && (!initial ==> heapInvalidated)
      ensures Quiet(old(reloads) + 1, old(failures)) && old(entries.Some? || dirty == {}) ==>
        result == Fine && Contents() == BeatNext(old(Contents()), Reload(now))
      decreases dirty, 3
    {
      now := 0;
      reloads := reloads + 1;
      ghost var saved, lost;
      result, depth, saved, lost := Sync();
      if result != Fine {
        return;
      }
      ghost var synced := Contents();
      var all;
      result, all, now := GetAllTaskSchedulers();
      if result != Fine {
        return;
      }
      entries := Some(all);
      if !initial {
        heapInvalidated := true;
      }
      assert Contents() == synced.(entries := Some(LoadAll(synced.db, now)));
    }

    /**
     * One round of `sync`: `name` has just been popped. Without a reload its row gets the counters in memory.
     * With one, the entry is read from the row before it was saved, so the row keeps its old counters and the
     * runs counted in memory are forgotten.
     */
    method SaveNext(name: Name) returns (result: Result, missing: bool, ghost depth: nat)
      requires name !in dirty
      modifies this
      ensures depth <= |old(dirty)| + 1
      ensures dirty <= old(dirty) && OnlyCounters(old(db), db, old(dirty) + {name})
      ensures reloads >= old(reloads) && failures >= old(failures) && !initialRead
      ensures old(entries).Some? ==> entries.Some? && result != NoSchedule
      ensures old(initialRead) ==> reloads > old(reloads)
      ensures reloads == old(reloads) ==> dirty == old(dirty) && entries == old(entries)
      ensures reloads == old(reloads) && old(entries).Some? ==>
        && (result == Fine ==> failures == old(failures) && (missing <==> name !in old(entries).value))
        && (result != Fine ==> failures == old(failures) + 1 && name in old(entries).value)
        && db == if result == Fine && !missing then SaveOne(old(db), name, old(entries).value[name], false) else old(db)
      ensures reloads > old(reloads) && name in old(db) ==>
        && db[name].runs == old(db)[name].runs
        && (old(db)[name].lastRun.Some? ==> db[name] == old(db)[name])
      ensures reloads > old(reloads) && result == Fine && name in old(db) ==>
        && entries.Some?
        && (missing <==> !old(db)[name].enabled)
        && (!missing ==> name in entries.value && entries.value[name].runs == old(db)[name].runs)
      decreases dirty, 5
    {
      missing := false;
      ghost var now;
      result, depth, now := Schedule();
      if result != Fine {
        return;
      }
      if entries.None? {
        result := NoSchedule;
      } else if name !in entries.value {
        missing := true;
      } else {
        ghost var saved;
        result, saved := Save(name, entries.value[name], false);
      }
    }

    /**
     * Whatever happens, `sync` ends, nests at most once per dirty name, makes no name dirty and writes only
     * counters of dirty names. With no reload inside, every dirty name that the schedule has is saved with its
     * counters in memory and the others stay dirty, unless the database fails: then the one name that was
     * being saved is neither saved nor dirty.
     */
    method Sync() returns (result: Result, ghost depth: nat, ghost saved: set<Name>, ghost lost: Option<Name>)
      modifies this
      ensures 1 <= depth <= |old(dirty)| + 1
      ensures dirty <= old(dirty) && OnlyCounters(old(db), db, old(dirty))
      ensures reloads >= old(reloads) && failures >= old(failures) && (initialRead ==> old(initialRead))
      ensures old(entries).Some? ==> entries.Some? && result != NoSchedule
      ensures result != DatabaseFailure
      ensures reloads == old(reloads) && old(entries).Some? ==>
        && entries == old(entries)
        && saved + Lost(lost) <= old(dirty) * old(entries).value.Keys && saved !! Lost(lost)
        && dirty == old(dirty) - saved - Lost(lost)
        && db == SaveAll(old(db), old(entries).value, saved)
        && failures == old(failures) + (if lost.Some? then 1 else 0)
      ensures Quiet(old(reloads), old(failures)) && old(entries).Some? ==> saved == old(dirty) * old(entries).value.Keys
      ensures Quiet(old(reloads), old(failures)) && old(entries.Some? || dirty == {}) ==>
        result == Fine && Contents() == Saved(old(Contents()))
      decreases dirty, 2
    {
      var failed;
      result, failed, depth, saved, lost := Drain();
      if Quiet(old(reloads), old(failures)) && old(entries).Some? {
        DrainedAll(old(db), db, old(entries).value, old(dirty), failed, saved);
      }
      dirty := dirty + failed;
      if result == DatabaseFailure {
        result := Fine;
      }
    }

    /** The loop in `sync`, up to its end or to what is raised inside. */
    method Drain()
      returns (result: Result, failed: set<Name>, ghost depth: nat, ghost saved: set<Name>, ghost lost: Option<Name>)
      modifies this
      ensures 1 <= depth <= |old(dirty)| + 1
      ensures dirty + failed <= old(dirty) && OnlyCounters(old(db), db, old(dirty))
      ensures reloads >= old(reloads) && failures >= old(failures) && (initialRead ==> old(initialRead))
      ensures old(entries).Some? ==> entries.Some? && result != NoSchedule
      ensures result == Fine <==> lost == None
      ensures result == Fine ==> dirty == {}
      ensures reloads == old(reloads) && old(entries).Some? ==>
        && entries == old(entries)
        && failures == old(failures) + (if lost.Some? then 1 else 0)
        && Drained(old(db), db, old(entries).value, old(dirty), dirty, failed, saved, lost)
      ensures old(dirty) == {} ==> db == old(db) && entries == old(entries) && failed == {} && result == Fine
      decreases dirty, 1
    {
      ghost var was, names, loaded := db, dirty, entries;
      result, depth, saved, lost := Fine, 1, {}, None;
      failed := {};
      while dirty != {} && result == Fine
        invariant 1 <= depth <= |names| + 1
        invariant dirty + failed <= names && OnlyCounters(was, db, names)
        invariant reloads >= old(reloads) && failures >= old(failures) && (initialRead ==> old(initialRead))
        invariant loaded.Some? ==> entries.Some? && result != NoSchedule
        invariant result == Fine <==> lost == None
        invariant reloads == old(reloads) && loaded.Some? ==>
          && entries == loaded
          && failures == old(failures) + (if lost.Some? then 1 else 0)
          && Drained(was, db, loaded.value, names, dirty, failed, saved, lost)
        invariant names == {} ==> db == was && entries == loaded && result == Fine
        decreases dirty
      {
        ghost var inner;
        result, failed, inner, saved, lost := Round(failed, was, names, saved);
        depth := if inner + 1 > depth then inner + 1 else depth;
      }
    }

    /** The body of the loop in `sync`: pops a name, saves its entry, and books the result. */
    method Round(failed: set<Name>, ghost was: map<Name, Row>, ghost names: set<Name>, ghost saved: set<Name>)
      returns (result: Result, failed': set<Name>, ghost depth: nat, ghost saved': set<Name>, ghost lost: Option<Name>)
      requires dirty != {} && dirty + failed <= names && OnlyCounters(was, db, names)
      modifies this
      ensures depth <= |names|
      ensures dirty < old(dirty) && dirty + failed' <= names && OnlyCounters(was, db, names)
      ensures reloads >= old(reloads) && failures >= old(failures) && !initialRead
      ensures old(initialRead) ==> reloads > old(reloads)
      ensures old(entries).Some? ==> entries.Some? && result != NoSchedule
      ensures result == Fine <==> lost == None
      ensures reloads == old(reloads) && old(entries).Some? ==>
        && entries == old(entries)
        && failures == old(failures) + (if lost.Some? then 1 else 0)
        && (Drained(was, old(db), old(entries).value, names, old(dirty), failed, saved, None) ==>
              Drained(was, db, entries.value, names, dirty, failed', saved', lost))
      decreases dirty, 0
    {
      HasName(dirty);
      var name :| name in dirty;
      ghost var rest, before, loaded := dirty, db, entries;
      PoppedIsSmaller(rest, name, names);
      dirty := dirty - {name};
      var missing;
      result, missing, depth := SaveNext(name);
      StillOnlyCounters(was, before, db, rest, names);
      failed', saved', lost := failed, saved, None;
      if result != Fine {
        lost := Some(name);
      } else if missing {
        failed' := failed + {name};
      } else {
        saved' := saved + {name};
      }
      if reloads == old(reloads) && loaded.Some? && Drained(was, before, loaded.value, names, rest, failed, saved, None) {
        DrainedRound(was, before, db, loaded.value, names, rest, failed, saved, name, result == Fine);
      }
    }

    /**
     * `reserve`: the entry is counted once more and its name is dirty. An entry that the heap still has from
     * before a reload is not the one in the schedule, and what is counted on it is not saved.
     */
    method Reserve(name: Name, current: bool) returns (ghost now: int)
      requires current ==> Has(Contents(), name)
      modifies this`dirty, this`entries
      ensures current ==> Contents() == CountRun(old(Contents()), name, now)
      ensures current ==> forall asked :: Ready(old(entries).value[name], asked) ==>
        Contents() == BeatNext(old(Contents()), Run(name, asked, now))
      ensures !current ==> entries == old(entries) && dirty == old(dirty) + {name}
    {
      var clock: int := *;
      now := clock;
      if current {
        var entry := entries.value[name];
        entry := entry.(lastRun := clock, runs := entry.runs + 1, noChanges := true);
        entries := Some(entries.value[name := entry]);
      }
      dirty := dirty + {name};
    }
  }
}

/** The layout of a snowflake id: packing four fields with shifts and `|`, parsing with shifts and masks. */
module SnowflakeId {
  import opened Bits

  const WORKER_ID_BITS: nat := 5
  const DATACENTER_ID_BITS: nat := 5
  const SEQUENCE_BITS: nat := 12

  const MAX_WORKER_ID: int := Shl(1, WORKER_ID_BITS) - 1
  const MAX_DATACENTER_ID: int := Shl(1, DATACENTER_ID_BITS) - 1
  const SEQUENCE_MASK: int := Shl(1, SEQUENCE_BITS) - 1

  const WORKER_ID_SHIFT: nat := SEQUENCE_BITS
  const DATACENTER_ID_SHIFT: nat := SEQUENCE_BITS + WORKER_ID_BITS
  const TIMESTAMP_LEFT_SHIFT: nat := SEQUENCE_BITS + WORKER_ID_BITS + DATACENTER_ID_BITS

  const EPOCH: int := 1262275200000

  datatype Fields = Fields(timestamp: int, datacenter: int, worker: int, sequence: int)

  predicate SlotInRange(datacenter: int, worker: int) {
    0 <= datacenter <= MAX_DATACENTER_ID && 0 <= worker <= MAX_WORKER_ID
  }

  predicate InRange(f: Fields) {
    SlotInRange(f.datacenter, f.worker) && 0 <= f.sequence <= SEQUENCE_MASK
  }

  function Pack(f: Fields): int {
    Or(Or(Or(Shl(f.timestamp - EPOCH, TIMESTAMP_LEFT_SHIFT),
             Shl(f.datacenter, DATACENTER_ID_SHIFT)),
          Shl(f.worker, WORKER_ID_SHIFT)),
       f.sequence)
  }

  function Parse(id: int): Fields {
    Fields(Shr(id, TIMESTAMP_LEFT_SHIFT) + EPOCH,
           And(Shr(id, DATACENTER_ID_SHIFT), MAX_DATACENTER_ID),
           And(Shr(id, WORKER_ID_SHIFT), MAX_WORKER_ID),
           And(id, SEQUENCE_MASK))
  }

  lemma Widths()
    ensures Pow2(5) == 32 && Pow2(12) == 4096 && Pow2(17) == 131072 && Pow2(22) == 4194304
    ensures MAX_WORKER_ID == 31 && MAX_DATACENTER_ID == 31 && SEQUENCE_MASK == 4095
  {
    assert Pow2(2) == 4 && Pow2(3) == 8 && Pow2(4) == 16 && Pow2(5) == 32;
    Pow2Add(5, 5);
    Pow2Add(10, 2);
    Pow2Add(12, 5);
    Pow2Add(17, 5);
  }

  lemma MaskValue()
    ensures SEQUENCE_MASK == 4095
  {
    Widths();
  }

  /** The OR of the shifted fields is their sum, for every timestamp (also one before the epoch). */
  lemma PackIsSum(f: Fields)
    requires InRange(f)
    ensures Pack(f) == (f.timestamp - EPOCH) * 4194304 + f.datacenter * 131072 + f.worker * 4096 + f.sequence
  {
    Widths();
    var t := f.timestamp - EPOCH;
    OrIsSum(t, 22, f.datacenter * 131072);
    assert t * 4194304 + f.datacenter * 131072 == Shl(t * 32 + f.datacenter, 17);
    OrIsSum(t * 32 + f.datacenter, 17, f.worker * 4096);
    assert Shl(t * 32 + f.datacenter, 17) + f.worker * 4096 == Shl((t * 32 + f.datacenter) * 32 + f.worker, 12);
    OrIsSum((t * 32 + f.datacenter) * 32 + f.worker, 12, f.sequence);
  }

  /** Parsing is division with remainder, for every integer. */
  lemma ParseIsDivision(id: int)
    ensures Parse(id) == Fields(id / 4194304 + EPOCH, id / 131072 % 32, id / 4096 % 32, id % 4096)
  {
    Widths();
    MaskIsRemainder(Shr(id, 17), 5);
    MaskIsRemainder(Shr(id, 12), 5);
    MaskIsRemainder(id, 12);
  }

  lemma DigitsOfSum(t: int, d: int, w: int, s: int)
    requires 0 <= d < 32 && 0 <= w < 32 && 0 <= s < 4096
    ensures var id := t * 4194304 + d * 131072 + w * 4096 + s;
      id / 4194304 == t && id / 131072 % 32 == d && id / 4096 % 32 == w && id % 4096 == s
  {
    var id := t * 4194304 + d * 131072 + w * 4096 + s;
    DivUnique(id, 4194304, t, d * 131072 + w * 4096 + s);
    DivUnique(id, 131072, t * 32 + d, w * 4096 + s);
    DivUnique(t * 32 + d, 32, t, d);
    DivUnique(id, 4096, (t * 32 + d) * 32 + w, s);
    DivUnique((t * 32 + d) * 32 + w, 32, t * 32 + d, w);
  }

  lemma SumOfDigits(id: int)
    ensures id == id / 4194304 * 4194304 + id / 131072 % 32 * 131072 + id / 4096 % 32 * 4096 + id % 4096
  {
    var a := id / 4096;
    var b := a / 32;
    DivUnique(id, 131072, b, a % 32 * 4096 + id % 4096);
    DivUnique(id, 4194304, b / 32, b % 32 * 131072 + a % 32 * 4096 + id % 4096);
  }

  /** Parsing an id recovers exactly the four fields it was packed from. */
  lemma ParsePack(f: Fields)
    requires InRange(f)
    ensures Parse(Pack(f)) == f
  {
    Widths();
    PackIsSum(f);
    ParseIsDivision(Pack(f));
    DigitsOfSum(f.timestamp - EPOCH, f.datacenter, f.worker, f.sequence);
  }

  /** Every integer, negative ones included, is the packing of its parsed fields. */
  lemma PackParse(id: int)
    ensures InRange(Parse(id)) && Pack(Parse(id)) == id
  {
    Widths();
    ParseIsDivision(id);
    SumOfDigits(id);
    PackIsSum(Parse(id));
  }

  /** The id is a non-negative signed 64-bit number exactly for 41-bit timestamps. */
  lemma FitsIn63Bits(f: Fields)
    requires InRange(f)
    ensures 0 <= Pack(f) < Pow2(63) <==> 0 <= f.timestamp - EPOCH < Pow2(41)
  {
    Widths();
    PackIsSum(f);
    Pow2Add(41, 22);
  }

  lemma PackInjective(f: Fields, g: Fields)
    requires InRange(f) && InRange(g)
    ensures Pack(f) == Pack(g) ==> f == g
  {
    ParsePack(f);
    ParsePack(g);
  }

  /** Timestamp first, then sequence: the order in which one generator issues. */
  predicate Before(s: int, i: int, t: int, j: int) {
    s < t || (s == t && i < j)
  }

  lemma PackMonotone(f: Fields, g: Fields)
    requires InRange(f) && InRange(g) && f.datacenter == g.datacenter && f.worker == g.worker
    ensures Pack(f) < Pack(g) <==> Before(f.timestamp, f.sequence, g.timestamp, g.sequence)
  {
    Widths();
    PackIsSum(f);
    PackIsSum(g);
  }
}

/** One generator driven by an arbitrary clock. */
module Snowflake {
  import opened Bits
  import opened Options
  import opened SnowflakeId

  const CLOCK_BACKWARD_TOLERANCE_MS: int := 10_000

  /** The fields of the source's class; `busy` is its lock while a call waits for the clock. */
  datatype Generator = Generator(initialized: bool, datacenter: int, worker: int,
                                 sequence: int, last: int, busy: bool)

  datatype Outcome =
    | Issued(id: int)
    | NotInitialized
    | ClockMovedBack(backMs: int)
    | StillWaiting

  predicate Valid(g: Generator) {
    && 0 <= g.sequence <= SEQUENCE_MASK
    && (g.initialized ==> SlotInRange(g.datacenter, g.worker))
  }

  function Fresh(datacenter: int, worker: int): Generator {
    Generator(true, datacenter, worker, 0, -1, false)
  }

  /** The first reading after `last`, if the clock ever gets there. */
  function FirstAfter(readings: seq<int>, last: int): (r: Option<int>)
    ensures r.Some? ==> r.value > last && r.value in readings
    ensures r.None? ==> forall t :: t in readings ==> t <= last
  {
    if readings == [] then None
    else if readings[0] > last then Some(readings[0])
    else
      assert readings == [readings[0]] + readings[1..];
      FirstAfter(readings[1..], last)
  }

  /**
   * The timestamp and sequence that a call which sees these clock readings will use. With the clock behind
   * by more than the tolerance there is none; with a clock that does not advance the call keeps waiting.
   */
  function Choose(g: Generator, readings: seq<int>): Option<(int, int)> {
    if readings == [] then None
    else if readings[0] > g.last then Some((readings[0], 0))
    else if readings[0] == g.last && g.sequence < SEQUENCE_MASK then Some((g.last, g.sequence + 1))
    else if readings[0] < g.last - CLOCK_BACKWARD_TOLERANCE_MS then None
    else
      match FirstAfter(readings[1..], g.last)
      case None => None
      case Some(t) => Some((t, 0))
  }

  predicate Rejects(g: Generator, readings: seq<int>) {
    readings != [] && readings[0] < g.last - CLOCK_BACKWARD_TOLERANCE_MS
  }

  /** One call of `generate` that sees `readings`, in order, when it reads the clock. */
  function Step(g: Generator, readings: seq<int>): (r: (Generator, Outcome))
    requires Valid(g)
    ensures Valid(r.0)
  {
    if !g.initialized then (g, NotInitialized)
    else if g.busy then (g, StillWaiting)
    else if Rejects(g, readings) then (g, ClockMovedBack(g.last - readings[0]))
    else
      match Choose(g, readings)
      case Some((t, s)) =>
        (g.(sequence := s, last := t), Issued(Pack(Fields(t, g.datacenter, g.worker, s))))
      case None =>
        var wrapped := readings != [] && readings[0] == g.last;
        (g.(busy := true, sequence := if wrapped then 0 else g.sequence), StillWaiting)
  }

  /** The wall clock: readings still to come, in any order, and possibly running out. */
  class Clock {
    var ahead: seq<int>

    constructor (readings: seq<int>)
      ensures ahead == readings
    {
      ahead := readings;
    }

    method CurrentMs() returns (t: Option<int>)
      modifies this
      ensures old(ahead) == [] ==> t == None && ahead == []
      ensures old(ahead) != [] ==> t == Some(old(ahead)[0]) && ahead == old(ahead)[1..]
    {
      if ahead == [] {
        return None;
      }
      t := Some(ahead[0]);
      ahead := ahead[1..];
    }
  }

  class SnowflakeGenerator {
    var initialized: bool
    var datacenter: int
    var worker: int
    var sequence: int
    var last: int
    var busy: bool

    ghost function State(): Generator
      reads this
    {
      Generator(initialized, datacenter, worker, sequence, last, busy)
    }

    constructor ()
      ensures State() == Generator(false, 0, 0, 0, -1, false)
    {
      initialized, datacenter, worker, sequence, last, busy := false, 0, 0, 0, -1, false;
    }

    /** Takes the slot from the settings when both are given, from the lease when neither is. */
    method Init(datacenterSetting: Option<int>, workerSetting: Option<int>, lease: Option<(int, int)>)
      returns (ok: bool)
      requires Valid(State())
      modifies this
      ensures Valid(State())
      ensures old(initialized) ==> ok && State() == old(State())
      ensures !old(initialized) ==>
        (ok <==>
          || (datacenterSetting.Some? && workerSetting.Some?
              && SlotInRange(datacenterSetting.value, workerSetting.value))
          || (datacenterSetting.None? && workerSetting.None? && lease.Some?
              && SlotInRange(lease.value.0, lease.value.1)))
      ensures initialized <==> ok
      ensures !old(initialized) && ok ==>
        State() == Generator(true, if datacenterSetting.Some? then datacenterSetting.value else lease.value.0,
                             if workerSetting.Some? then workerSetting.value else lease.value.1,
                             old(sequence), old(last), old(busy))
      ensures !ok ==> State() == Generator(false, datacenter, worker, old(sequence), old(last), old(busy))
    {
      if initialized {
        return true;
      }
      if datacenterSetting.Some? && workerSetting.Some? {
        datacenter, worker := datacenterSetting.value, workerSetting.value;
      } else if datacenterSetting.Some? || workerSetting.Some? {
        return false;
      } else if lease.None? {
        return false;
      } else {
        datacenter, worker := lease.value.0, lease.value.1;
      }
      if !(0 <= datacenter <= MAX_DATACENTER_ID) {
        return false;
      }
      if !(0 <= worker <= MAX_WORKER_ID) {
        return false;
      }
      initialized := true;
      ok := true;
    }

    method TillNextMs(clock: Clock) returns (t: Option<int>)
      modifies clock
      ensures t == FirstAfter(old(clock.ahead), last)
    {
      t := clock.CurrentMs();
      while t.Some? && t.value <= last
        invariant t.None? ==> FirstAfter(old(clock.ahead), last) == None
        invariant t.Some? && t.value > last ==> t == FirstAfter(old(clock.ahead), last)
        invariant t.Some? && t.value <= last ==>
          FirstAfter(clock.ahead, last) == FirstAfter(old(clock.ahead), last)
        decreases t.Some?, |clock.ahead|
      {
        t := clock.CurrentMs();
      }
    }

    method Generate(clock: Clock) returns (r: Outcome)
      requires Valid(State())
      modifies this, clock
      ensures (State(), r) == Step(old(State()), old(clock.ahead))
    {
      if !initialized {
        return NotInitialized;
      }
      if busy {
        return StillWaiting;
      }
      busy := true;
      var reading := clock.CurrentMs();
      if reading.None? {
        return StillWaiting;
      }
      var timestamp := reading.value;
      if timestamp < last {
        var backMs := last - timestamp;
        if backMs <= CLOCK_BACKWARD_TOLERANCE_MS {
          reading := TillNextMs(clock);
          if reading.None? {
            return StillWaiting;
          }
          timestamp := reading.value;
        } else {
          busy := false;
          return ClockMovedBack(backMs);
        }
      }
      if timestamp == last {
        IncrementWraps(sequence);
        sequence := And(sequence + 1, SEQUENCE_MASK);
        if sequence == 0 {
          reading := TillNextMs(clock);
          if reading.None? {
            return StillWaiting;
          }
          timestamp := reading.value;
        }
      } else {
        sequence := 0;
      }
      last := timestamp;
      busy := false;
      return Issued(Pack(Fields(timestamp, datacenter, worker, sequence)));
    }
  }

  lemma MaskWraps(next: int, n: nat)
    requires 0 <= next <= Pow2(n)
    ensures And(next, Pow2(n) - 1) == if next == Pow2(n) then 0 else next
  {
    MaskIsRemainder(next, n);
    var p := Pow2(n);
    if next == p {
      DivUnique(next, p, 1, 0);
    } else {
      DivUnique(next, p, 0, next);
    }
  }

  lemma IncrementWraps(sequence: int)
    requires 0 <= sequence <= SEQUENCE_MASK
    ensures And(sequence + 1, SEQUENCE_MASK) == if sequence == SEQUENCE_MASK then 0 else sequence + 1
  {
    Widths();
    MaskWraps(sequence + 1, 12);
  }

  // ---------------------------------------------------------------- what one call answers

  /** Reading k is the first one later than `last`. */
  predicate FirstLater(readings: seq<int>, last: int, k: nat) {
    k < |readings| && readings[k] > last && forall j :: 0 <= j < k ==> readings[j] <= last
  }

  lemma {:induction false} FirstAfterAt(readings: seq<int>, last: int) returns (k: nat)
    ensures FirstAfter(readings, last).Some? ==>
      FirstLater(readings, last, k) && FirstAfter(readings, last).value == readings[k]
  {
    k := 0;
    if readings != [] && readings[0] <= last {
      var rest := FirstAfterAt(readings[1..], last);
      k := rest + 1;
      if FirstAfter(readings, last).Some? {
        forall j | 0 <= j < k ensures readings[j] <= last {
          assert j > 0 ==> readings[j] == readings[1..][j - 1];
        }
      }
    }
  }

  /** A generator without a slot answers so, and one that waits for the clock goes on waiting. */
  lemma NotReady(g: Generator, readings: seq<int>)
    requires Valid(g)
    ensures Step(g, readings).1 == NotInitialized <==> !g.initialized
    ensures !g.initialized || g.busy ==> Step(g, readings).0 == g
    ensures g.initialized && (g.busy || readings == []) ==> Step(g, readings).1 == StillWaiting
  {
  }

  /**
   * A call is refused exactly when the clock is more than ten seconds behind, and says by how much. It issues
   * exactly when the clock is not that far behind and the millisecond of the last id has room left, or the clock
   * gets past it. Otherwise it waits.
   */
  lemma AnswersExactly(g: Generator, readings: seq<int>)
    requires Valid(g) && g.initialized && !g.busy && readings != []
    ensures var (h, answer) := Step(g, readings);
      && (forall b :: answer == ClockMovedBack(b) <==> b == g.last - readings[0] && b > 10_000)
      && (answer.Issued? <==>
            && g.last - readings[0] <= 10_000
            && ((readings[0] == g.last && g.sequence < 4095)
                || exists k :: 0 <= k < |readings| && readings[k] > g.last))
      && (answer.ClockMovedBack? ==> h == g)
      && (answer.ClockMovedBack? || answer.Issued? || (answer == StillWaiting && h.busy))
  {
    MaskValue();
    if readings[0] > g.last {
      assert Step(g, readings).1.Issued?;
    } else {
      SomeLater(readings, g.last);
    }
  }

  lemma SomeLater(readings: seq<int>, last: int)
    requires readings != [] && readings[0] <= last
    ensures FirstAfter(readings[1..], last).Some? <==> exists k :: 0 <= k < |readings| && readings[k] > last
  {
    var rest := readings[1..];
    if FirstAfter(rest, last).Some? {
      var t := FirstAfter(rest, last).value;
      var k :| 0 <= k < |rest| && rest[k] == t;
      assert readings[k + 1] > last;
    } else {
      forall k | 0 < k < |readings| ensures readings[k] <= last {
        assert readings[k] == rest[k - 1] && rest[k - 1] in rest;
      }
    }
  }

  /**
   * An id carries the millisecond of the last one only when the clock shows it and there is room left, and then
   * the next sequence; otherwise it carries the first later reading, and sequence 0.
   */
  lemma IssuesAt(g: Generator, readings: seq<int>)
    requires Valid(g) && Step(g, readings).1.Issued?
    ensures var h := Step(g, readings).0;
      if readings[0] == g.last && g.sequence < 4095
      then h.last == g.last && h.sequence == g.sequence + 1
      else h.sequence == 0 && exists k: nat :: FirstLater(readings, g.last, k) && h.last == readings[k]
  {
    MaskValue();
    if readings[0] > g.last {
      assert FirstLater(readings, g.last, 0);
    } else {
      var k := FirstAfterAt(readings[1..], g.last);
      if FirstLater(readings[1..], g.last, k) {
        forall j | 0 <= j < k + 1 ensures readings[j] <= g.last {
          assert j > 0 ==> readings[j] == readings[1..][j - 1];
        }
        assert FirstLater(readings, g.last, k + 1);
      }
    }
  }

  // ---------------------------------------------------------------- runs of one generator

  datatype Issue = Issue(id: int, timestamp: int, sequence: int)

  /** Any number of calls, each with its own clock readings: the final state and what was issued, in order. */
  function Run(g: Generator, calls: seq<seq<int>>): (r: (Generator, seq<Issue>))
    requires Valid(g)
    ensures Valid(r.0)
  {
    if calls == [] then (g, [])
    else
      var (h, issues) := Run(g, calls[..|calls| - 1]);
      var (h', outcome) := Step(h, calls[|calls| - 1]);
      (h', if outcome.Issued? then issues + [Issue(outcome.id, h'.last, h'.sequence)] else issues)
  }

  /** What one call can do: issue something later than all before it, or leave the position alone. */
  lemma StepAdvances(g: Generator, readings: seq<int>)
    requires Valid(g)
    ensures var (h, outcome) := Step(g, readings);
      && (h.initialized, h.datacenter, h.worker) == (g.initialized, g.datacenter, g.worker)
      && (g.busy ==> h == g && !outcome.Issued?)
      && (outcome.Issued? ==>
            && Before(g.last, g.sequence, h.last, h.sequence)
            && (h.last == g.last ==> h.sequence == g.sequence + 1)
            && (h.last != g.last ==> h.sequence == 0 && h.last in readings)
            && InRange(Fields(h.last, h.datacenter, h.worker, h.sequence))
            && outcome.id == Pack(Fields(h.last, h.datacenter, h.worker, h.sequence)))
      && (!outcome.Issued? ==> h.last == g.last && (h == g || h.busy))
  {
    MaskValue();
  }

  predicate Faithful(g: Generator, e: Issue) {
    && InRange(Fields(e.timestamp, g.datacenter, g.worker, e.sequence))
    && e.id == Pack(Fields(e.timestamp, g.datacenter, g.worker, e.sequence))
  }

  /** Issued in order: the sequence counts up inside a millisecond and restarts at 0 in the next one. */
  predicate InOrder(issues: seq<Issue>) {
    && (forall k :: 0 <= k < |issues| ==> 0 <= issues[k].sequence < 4096)
    && (forall k :: 1 <= k < |issues| ==>
          Before(issues[k - 1].timestamp, issues[k - 1].sequence, issues[k].timestamp, issues[k].sequence))
    && (forall k :: 1 <= k < |issues| ==>
          issues[k].sequence == if issues[k].timestamp == issues[k - 1].timestamp
                                then issues[k - 1].sequence + 1 else 0)
  }

  lemma OrderSnoc(issues: seq<Issue>, e: Issue)
    requires InOrder(issues) && 0 <= e.sequence < 4096
    requires issues != [] ==>
      var p := issues[|issues| - 1];
      && Before(p.timestamp, p.sequence, e.timestamp, e.sequence)
      && e.sequence == if e.timestamp == p.timestamp then p.sequence + 1 else 0
    ensures InOrder(issues + [e])
  {
    var all := issues + [e];
    assert forall k :: 0 <= k < |issues| ==> all[k] == issues[k];
  }

  lemma {:induction false} RunFacts(g: Generator, calls: seq<seq<int>>)
    requires Valid(g) && g.initialized
    ensures var (h, issues) := Run(g, calls);
      && (h.initialized, h.datacenter, h.worker) == (g.initialized, g.datacenter, g.worker)
      && (forall k :: 0 <= k < |issues| ==> Faithful(g, issues[k]))
      && InOrder(issues)
      && (issues != [] ==>
            var e := issues[|issues| - 1]; e.timestamp == h.last && (h.busy || e.sequence == h.sequence))
  {
    MaskValue();
    if calls != [] {
      RunFacts(g, calls[..|calls| - 1]);
      var (h, issues) := Run(g, calls[..|calls| - 1]);
      var readings := calls[|calls| - 1];
      StepAdvances(h, readings);
      var (h', outcome) := Step(h, readings);
      if outcome.Issued? {
        var e := Issue(outcome.id, h'.last, h'.sequence);
        assert Faithful(g, e);
        OrderSnoc(issues, e);
      }
    }
  }

  lemma {:induction false} OrderIsTransitive(issues: seq<Issue>, j: nat, k: nat)
    requires InOrder(issues) && j < k < |issues|
    ensures Before(issues[j].timestamp, issues[j].sequence, issues[k].timestamp, issues[k].sequence)
    decreases k
  {
    if j < k - 1 {
      OrderIsTransitive(issues, j, k - 1);
    }
  }

  /** For any clock, also across rejected calls, the ids of one generator strictly increase. */
  lemma IdsStrictlyIncrease(g: Generator, calls: seq<seq<int>>, j: nat, k: nat)
    requires Valid(g) && g.initialized
    requires j < k < |Run(g, calls).1|
    ensures Run(g, calls).1[j].id < Run(g, calls).1[k].id
  {
    RunFacts(g, calls);
    var issues := Run(g, calls).1;
    OrderIsTransitive(issues, j, k);
    assert Faithful(g, issues[j]) && Faithful(g, issues[k]);
    PackMonotone(Fields(issues[j].timestamp, g.datacenter, g.worker, issues[j].sequence),
                 Fields(issues[k].timestamp, g.datacenter, g.worker, issues[k].sequence));
  }

  function Stamps(issues: seq<Issue>): set<int> {
    set k | 0 <= k < |issues| :: issues[k].timestamp
  }

  lemma StampsSnoc(front: seq<Issue>, e: Issue)
    ensures Stamps(front + [e]) == Stamps(front) + {e.timestamp}
  {
    var issues := front + [e];
    forall t | t in Stamps(front) + {e.timestamp} ensures t in Stamps(issues) {
      if t == e.timestamp {
        assert issues[|front|] == e;
      } else {
        var k :| 0 <= k < |front| && front[k].timestamp == t;
        assert issues[k] == front[k];
      }
    }
  }

  lemma {:induction false} OrderedCapacity(issues: seq<Issue>)
    requires InOrder(issues) && issues != []
    ensures |issues| <= 4096 * (|Stamps(issues)| - 1) + issues[|issues| - 1].sequence + 1
  {
    var n := |issues| - 1;
    var front, e := issues[..n], issues[n];
    assert issues == front + [e];
    StampsSnoc(front, e);
    if n == 0 {
      assert Stamps(issues) == {e.timestamp};
    } else {
      var p := front[n - 1];
      OrderedCapacity(front);
      if e.timestamp == p.timestamp {
        assert p.timestamp in Stamps(front);
        assert Stamps(issues) == Stamps(front);
      } else {
        NewStamp(issues);
      }
    }
  }

  lemma NewStamp(issues: seq<Issue>)
    requires InOrder(issues) && |issues| > 1
    requires issues[|issues| - 1].timestamp != issues[|issues| - 2].timestamp
    ensures issues[|issues| - 1].timestamp !in Stamps(issues[..|issues| - 1])
  {
    var n := |issues| - 1;
    forall k | 0 <= k < n ensures issues[k].timestamp < issues[n].timestamp {
      if k < n - 1 {
        OrderIsTransitive(issues, k, n - 1);
      }
    }
  }

  /** At most 4096 ids share a millisecond: N ids span at least N / 4096 distinct timestamps. */
  lemma MillisecondCapacity(g: Generator, calls: seq<seq<int>>)
    requires Valid(g) && g.initialized
    ensures |Run(g, calls).1| <= 4096 * |Stamps(Run(g, calls).1)|
  {
    RunFacts(g, calls);
    if Run(g, calls).1 != [] {
      OrderedCapacity(Run(g, calls).1);
    }
  }

  /** The ids that carry one timestamp have different sequences in 0..4095. */
  lemma SharedMillisecond(g: Generator, calls: seq<seq<int>>, stamp: int)
    requires Valid(g) && g.initialized
    ensures var issues := Run(g, calls).1;
      |set k | 0 <= k < |issues| && issues[k].timestamp == stamp :: k| <= 4096
  {
    RunFacts(g, calls);
    var issues := Run(g, calls).1;
    forall j, k | 0 <= j < k < |issues| && issues[j].timestamp == issues[k].timestamp
      ensures issues[j].sequence != issues[k].sequence
    {
      OrderIsTransitive(issues, j, k);
    }
    var shared := set k | 0 <= k < |issues| && issues[k].timestamp == stamp :: k;
    BoundedBySequence(issues, shared, 4096);
  }

  lemma {:induction false} BoundedBySequence(issues: seq<Issue>, s: set<int>, bound: nat)
    requires forall k :: k in s ==> 0 <= k < |issues| && 0 <= issues[k].sequence < bound
    requires forall j, k :: j in s && k in s && issues[j].sequence == issues[k].sequence ==> j == k
    ensures |s| <= bound
    decreases bound
  {
    if bound == 0 {
      assert s == {};
    } else {
      var top := set k | k in s && issues[k].sequence == bound - 1;
      BoundedBySequence(issues, s - top, bound - 1);
      if top != {} {
        var k :| k in top;
        assert top == {k};
      }
      assert s == (s - top) + top;
    }
  }
}

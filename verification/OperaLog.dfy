/**
 * The operation log: requests put records into a bounded queue, one consumer takes them out in batches and
 * writes each batch in one transaction. Puts interleave with everything the consumer awaits.
 */
module OperaLog {

  const QUEUE_MAX_SIZE := 100000

  type Record = int

  /** A batch that was handed to the database, and whether the transaction committed. */
  datatype Batch = Batch(records: seq<Record>, stored: bool)

  datatype Phase = Collecting | Flushing | Marking

  /**
   * `puts` and `batches` are the history; `hand` is the batch being collected or flushed; `owed` counts the
   * `task_done` calls that the last flush still has to make.
   */
  datatype State = State(puts: seq<Record>, batches: seq<Batch>, hand: seq<Record>, queue: seq<Record>,
                         unfinished: int, owed: int, phase: Phase)

  datatype Step =
    | Put(record: Record)
    | Get
    | Stop(timeout: bool)
    | Flush(commits: bool)
    | TaskDone

  const EMPTY := State([], [], [], [], 0, 0, Collecting)

  /** A put waits while the queue is full; the collector stops when it is full or the time is over. */
  predicate Enabled(limit: int, s: State, step: Step) {
    match step
    case Put(_) => |s.queue| < QUEUE_MAX_SIZE
    case Get => s.phase == Collecting && |s.hand| < limit && s.queue != []
    case Stop(timeout) => s.phase == Collecting && (timeout || |s.hand| >= limit)
    case Flush(_) => s.phase == Flushing
    case TaskDone => s.phase == Marking
  }

  function Next(limit: int, s: State, step: Step): State {
    if !Enabled(limit, s, step) then s
    else
      match step
      case Put(r) => s.(puts := s.puts + [r], queue := s.queue + [r], unfinished := s.unfinished + 1)
      case Get => s.(hand := s.hand + [s.queue[0]], queue := s.queue[1..])
      case Stop(_) => s.(phase := if s.hand == [] then Collecting else Flushing)
      case Flush(commits) =>
        s.(batches := s.batches + [Batch(s.hand, commits)], hand := [], owed := |s.hand|, phase := Marking)
      case TaskDone =>
        s.(unfinished := s.unfinished - 1, owed := s.owed - 1, phase := if s.owed == 1 then Collecting else Marking)
  }

  function Exec(limit: int, start: State, run: seq<Step>): State {
    if run == [] then start else Next(limit, Exec(limit, start, run[..|run| - 1]), run[|run| - 1])
  }

  /** The records of these batches, in order. */
  function Flat(batches: seq<Batch>): seq<Record> {
    if batches == [] then [] else Flat(batches[..|batches| - 1]) + batches[|batches| - 1].records
  }

  // ---------------------------------------------------------------- conservation

  /** Every record that was put is flushed, in hand or queued, once and in the order of the puts. */
  predicate Conserved(s: State) {
    s.puts == Flat(s.batches) + s.hand + s.queue
  }

  predicate Bounded(limit: int, s: State) {
    && (forall b :: b in s.batches ==> 0 < |b.records| <= limit)
    && (s.hand == [] || |s.hand| <= limit)
    && |s.queue| <= QUEUE_MAX_SIZE
    && s.unfinished == |s.hand| + |s.queue| + s.owed
    && (s.phase == Flushing ==> s.hand != [])
    && (s.phase == Marking ==> s.hand == [])
    && s.owed >= 0 && (s.owed > 0 <==> s.phase == Marking)
  }

  lemma StepConserves(limit: int, s: State, step: Step)
    requires Conserved(s) && Bounded(limit, s)
    ensures Conserved(Next(limit, s, step)) && Bounded(limit, Next(limit, s, step))
  {
    var t := Next(limit, s, step);
    if t != s {
      match step
      case Put(r) =>
        assert t.puts == Flat(s.batches) + s.hand + (s.queue + [r]);
      case Get =>
        assert s.queue == [s.queue[0]] + s.queue[1..];
      case Flush(commits) =>
        assert t.batches[..|s.batches|] == s.batches;
      case _ =>
    }
  }

  /**
   * In every interleaving: the records put are the flushed batches, then the batch in hand, then the queue; no
   * batch is empty or over the limit; and the unfinished count is what is queued, in hand or not yet marked.
   */
  lemma {:induction false} RunConserves(limit: int, run: seq<Step>)
    ensures Conserved(Exec(limit, EMPTY, run)) && Bounded(limit, Exec(limit, EMPTY, run))
  {
    if run != [] {
      var front := run[..|run| - 1];
      RunConserves(limit, front);
      StepConserves(limit, Exec(limit, EMPTY, front), run[|run| - 1]);
    }
  }

  /** `task_done` is never called too often, which would raise. */
  lemma MarkingNeverFails(limit: int, run: seq<Step>)
    requires Enabled(limit, Exec(limit, EMPTY, run), TaskDone)
    ensures Exec(limit, EMPTY, run).unfinished > 0
  {
    RunConserves(limit, run);
  }

  /** Waiting until no task is unfinished means that every record put has been flushed, in order. */
  lemma JoinedMeansFlushed(limit: int, run: seq<Step>)
    ensures var s := Exec(limit, EMPTY, run);
      s.unfinished == 0 <==> s.puts == Flat(s.batches) && s.phase == Collecting
  {
    RunConserves(limit, run);
    var s := Exec(limit, EMPTY, run);
    assert |s.puts| == |Flat(s.batches)| + |s.hand| + |s.queue|;
  }

  /** What was flushed once is never flushed again or taken back. */
  lemma {:induction false} FlushedForever(limit: int, run: seq<Step>, i: nat)
    requires i <= |run|
    ensures Exec(limit, EMPTY, run[..i]).batches <= Exec(limit, EMPTY, run).batches
    ensures Exec(limit, EMPTY, run[..i]).puts <= Exec(limit, EMPTY, run).puts
  {
    if i == |run| {
      assert run[..i] == run;
    } else {
      var front := run[..|run| - 1];
      assert front[..i] == run[..i];
      FlushedForever(limit, front, i);
    }
  }

  // ---------------------------------------------------------------- what each step does

  /** The history grows by a put that finds room, and by the batch in hand with what became of its transaction. */
  lemma HistoryExactly(limit: int, s: State, step: Step)
    ensures var t := Next(limit, s, step);
      && t.puts == (if step.Put? && |s.queue| < 100000 then s.puts + [step.record] else s.puts)
      && t.batches == (if step.Flush? && s.phase == Flushing then s.batches + [Batch(s.hand, step.commits)]
                       else s.batches)
      && t.unfinished == s.unfinished + (if step.Put? && |s.queue| < 100000 then 1
                                         else if step == TaskDone && s.phase == Marking then -1 else 0)
  {
  }

  /** The collector takes the first record while it has room, and stops when it is full or out of time. */
  lemma HandExactly(limit: int, s: State, step: Step)
    ensures var t := Next(limit, s, step);
      && (t.hand != s.hand ==> s.phase != Marking)
      && (s.phase == Collecting ==>
            && t.hand == (if step == Get && |s.hand| < limit && s.queue != [] then s.hand + [s.queue[0]] else s.hand)
            && (t.phase == Flushing <==> step.Stop? && s.hand != [] && (step.timeout || |s.hand| >= limit)))
      && (s.phase == Flushing && t.phase != Flushing ==> step.Flush? && t.hand == [] && t.owed == |s.hand|)
  {
  }

  // ---------------------------------------------------------------- the consumer always gets there

  lemma Snoc(limit: int, s: State, run: seq<Step>, step: Step)
    ensures Exec(limit, s, run + [step]) == Next(limit, Exec(limit, s, run), step)
  {
    assert (run + [step])[..|run|] == run;
  }

  lemma {:induction false} ExecJoins(limit: int, s: State, a: seq<Step>, b: seq<Step>)
    ensures Exec(limit, s, a + b) == Exec(limit, Exec(limit, s, a), b)
  {
    if b == [] {
      assert a + b == a;
    } else {
      assert (a + b)[..|a + b| - 1] == a + b[..|b| - 1];
      ExecJoins(limit, s, a, b[..|b| - 1]);
    }
  }

  /** How many steps of the consumer are left until everything is flushed and marked. */
  function Work(s: State): int {
    4 * |s.queue| + 3 * |s.hand| + s.owed - (if s.phase == Flushing then 1 else 0)
  }

  function Advance(limit: int, s: State): Step {
    match s.phase
    case Collecting => if |s.hand| < limit && s.queue != [] then Get else Stop(|s.hand| < limit)
    case Flushing => Flush(true)
    case Marking => TaskDone
  }

  lemma AdvanceWorks(limit: int, s: State)
    requires limit > 0 && Bounded(limit, s) && s.unfinished > 0
    ensures Enabled(limit, s, Advance(limit, s))
    ensures 0 <= Work(Next(limit, s, Advance(limit, s))) < Work(s)
    ensures Next(limit, s, Advance(limit, s)).puts == s.puts
  {
  }

  /** With a positive batch size the consumer can always flush and mark everything that has been put so far. */
  lemma {:induction false} Drains(limit: int, s: State) returns (run: seq<Step>)
    requires limit > 0 && Conserved(s) && Bounded(limit, s)
    ensures forall step :: step in run ==> !step.Put?
    ensures Exec(limit, s, run).unfinished == 0 && Exec(limit, s, run).puts == s.puts
    ensures Flat(Exec(limit, s, run).batches) == s.puts
    decreases Work(s)
  {
    if s.unfinished == 0 {
      run := [];
      assert s.puts == Flat(s.batches) + [] + [];
    } else {
      var step := Advance(limit, s);
      AdvanceWorks(limit, s);
      StepConserves(limit, s, step);
      var rest := Drains(limit, Next(limit, s, step));
      run := [step] + rest;
      assert [step][..0] == [];
      assert Exec(limit, s, [step]) == Next(limit, s, step);
      ExecJoins(limit, s, [step], rest);
    }
  }

  /** With any other batch size nothing is ever flushed. */
  lemma {:induction false} NothingFlushed(limit: int, run: seq<Step>)
    requires limit <= 0
    ensures Exec(limit, EMPTY, run).batches == [] && Exec(limit, EMPTY, run).queue == Exec(limit, EMPTY, run).puts
  {
    if run != [] {
      NothingFlushed(limit, run[..|run| - 1]);
      RunConserves(limit, run[..|run| - 1]);
    }
    RunConserves(limit, run);
    assert Flat([]) + [] + Exec(limit, EMPTY, run).queue == Exec(limit, EMPTY, run).queue;
  }

  // ---------------------------------------------------------------- what one batch takes

  /** How many of these records can be put while so many are held. */
  function Fits(held: nat, count: nat): (k: nat)
    ensures k <= count
  {
    if held >= QUEUE_MAX_SIZE then 0
    else if QUEUE_MAX_SIZE - held < count then QUEUE_MAX_SIZE - held
    else count
  }

  /** All of them while there is room for 100000 in all. */
  lemma FitsExactly(held: nat, count: nat)
    ensures held + count <= 100000 ==> Fits(held, count) == count
    ensures held <= 100000 < held + count ==> held + Fits(held, count) == 100000
    ensures held > 100000 ==> Fits(held, count) == 0
  {
  }

  datatype Collected = Collected(items: seq<Record>, queue: seq<Record>, puts: seq<Record>)

  /** Before each wake-up some records are put; then the first one in the queue is taken, if there is one. */
  function Collect(c: Collected, arrivals: seq<seq<Record>>, limit: int): Collected
    decreases arrivals
  {
    if |c.items| >= limit || arrivals == [] then c
    else
      var fit := arrivals[0][..Fits(|c.queue|, |arrivals[0]|)];
      var q, puts := c.queue + fit, c.puts + fit;
      Collect(if q == [] then Collected(c.items, q, puts) else Collected(c.items + [q[0]], q[1..], puts),
              arrivals[1..], limit)
  }

  lemma LaterPuts(before: seq<Record>, fit: seq<Record>, after: seq<Record>)
    requires before + fit <= after
    ensures before <= after && after[|before|..] == fit + after[|before + fit|..]
  {
    assert after == before + fit + after[|before + fit|..];
  }

  /** A batch takes the records in order: what it has and what is left in the queue is what was there and was put. */
  lemma {:induction false} CollectKeepsOrder(c: Collected, arrivals: seq<seq<Record>>, limit: int)
    ensures var d := Collect(c, arrivals, limit);
      && c.puts <= d.puts
      && d.items + d.queue == c.items + c.queue + d.puts[|c.puts|..]
    decreases arrivals
  {
    if |c.items| < limit && arrivals != [] {
      var fit := arrivals[0][..Fits(|c.queue|, |arrivals[0]|)];
      var q, puts := c.queue + fit, c.puts + fit;
      var e := if q == [] then Collected(c.items, q, puts) else Collected(c.items + [q[0]], q[1..], puts);
      assert e.items + e.queue == c.items + q;
      CollectKeepsOrder(e, arrivals[1..], limit);
      LaterPuts(c.puts, fit, Collect(e, arrivals[1..], limit).puts);
    }
  }

  /** A batch is never over the limit, and it is full whenever enough records wait and there is time for them. */
  lemma {:induction false} CollectFills(c: Collected, arrivals: seq<seq<Record>>, limit: nat)
    requires |c.items| <= limit
    ensures |Collect(c, arrivals, limit).items| <= limit
    ensures |c.queue| >= limit - |c.items| && |arrivals| >= limit - |c.items| ==>
              |Collect(c, arrivals, limit).items| == limit
    decreases arrivals
  {
    if |c.items| < limit && arrivals != [] {
      var fit := arrivals[0][..Fits(|c.queue|, |arrivals[0]|)];
      var q, puts := c.queue + fit, c.puts + fit;
      CollectFills(if q == [] then Collected(c.items, q, puts) else Collected(c.items + [q[0]], q[1..], puts),
                   arrivals[1..], limit);
    }
  }

  // ---------------------------------------------------------------- the code

  class Middleware {
    var queue: seq<Record>
    var unfinished: int
    ghost var puts: seq<Record>
    ghost var batches: seq<Batch>

    ghost function View(hand: seq<Record>, owed: int, phase: Phase): State
      reads this
    {
      State(puts, batches, hand, queue, unfinished, owed, phase)
    }

    constructor ()
      ensures View([], 0, Collecting) == EMPTY
    {
      queue, unfinished, puts, batches := [], 0, [], [];
    }

    /** Requests that put their records while the consumer waits; a full queue keeps the rest of them waiting. */
    method PutAll(records: seq<Record>, ghost hand: seq<Record>, ghost phase: Phase, ghost limit: int)
      returns (ghost trace: seq<Step>)
      modifies this`queue, this`unfinished, this`puts
      ensures var fit := records[..Fits(|old(queue)|, |records|)];
        queue == old(queue) + fit && puts == old(puts) + fit && unfinished == old(unfinished) + |fit|
      ensures Exec(limit, old(View(hand, 0, phase)), trace) == View(hand, 0, phase)
    {
      trace := [];
      var i := 0;
      while i < |records| && |queue| < QUEUE_MAX_SIZE
        invariant i <= |records| && (i > 0 ==> |queue| <= QUEUE_MAX_SIZE)
        invariant queue == old(queue) + records[..i] && puts == old(puts) + records[..i]
        invariant unfinished == old(unfinished) + i
        invariant Exec(limit, old(View(hand, 0, phase)), trace) == View(hand, 0, phase)
      {
        assert records[..i + 1] == records[..i] + [records[i]];
        queue, unfinished, puts := queue + [records[i]], unfinished + 1, puts + [records[i]];
        Snoc(limit, old(View(hand, 0, phase)), trace, Put(records[i]));
        trace := trace + [Put(records[i])];
        i := i + 1;
      }
    }

    /**
     * Collects at most `maxItems` records; `arrivals` are the records put before each wake-up of the collector,
     * and the time is over when they are used up.
     */
    method BatchDequeue(maxItems: int, arrivals: seq<seq<Record>>) returns (items: seq<Record>, ghost trace: seq<Step>)
      modifies this`queue, this`unfinished, this`puts
      ensures Collected(items, queue, puts) == Collect(Collected([], old(queue), old(puts)), arrivals, maxItems)
      ensures unfinished - |puts| == old(unfinished) - |old(puts)|
      ensures Exec(maxItems, old(View([], 0, Collecting)), trace)
           == View(items, 0, if items == [] then Collecting else Flushing)
    {
      ghost var start := View([], 0, Collecting);
      items, trace := [], [];
      var i := 0;
      while |items| < maxItems && i < |arrivals|
        invariant i <= |arrivals|
        invariant Collect(Collected(items, queue, puts), arrivals[i..], maxItems)
               == Collect(Collected([], old(queue), old(puts)), arrivals, maxItems)
        invariant unfinished - |puts| == old(unfinished) - |old(puts)|
        invariant Exec(maxItems, start, trace) == View(items, 0, Collecting)
      {
        assert arrivals[i..][1..] == arrivals[i + 1..];
        ghost var more := PutAll(arrivals[i], items, Collecting, maxItems);
        ExecJoins(maxItems, start, trace, more);
        trace := trace + more;
        Snoc(maxItems, start, trace, Get);
        trace := trace + [Get];
        if queue != [] {
          items, queue := items + [queue[0]], queue[1..];
        }
        i := i + 1;
      }
      ghost var stop := Stop(|items| < maxItems);
      Snoc(maxItems, start, trace, stop);
      trace := trace + [stop];
    }

    /**
     * One turn of the consumer: what it took out of the queue is handed to one transaction, and marked whether
     * that commits or fails. `meanwhile` is put while the transaction runs.
     */
    method Consume(maxItems: int, arrivals: seq<seq<Record>>, meanwhile: seq<Record>, commits: bool)
      returns (logs: seq<Record>, ghost trace: seq<Step>)
      modifies this
      ensures var c := Collect(Collected([], old(queue), old(puts)), arrivals, maxItems);
        var later := if c.items == [] then [] else meanwhile[..Fits(|c.queue|, |meanwhile|)];
        && logs == c.items
        && queue == c.queue + later && puts == c.puts + later
        && unfinished == old(unfinished) + |puts| - |old(puts)| - |logs|
      ensures batches == old(batches) + if logs == [] then [] else [Batch(logs, commits)]
      ensures View([], 0, Collecting) == Exec(maxItems, old(View([], 0, Collecting)), trace)
    {
      ghost var start := View([], 0, Collecting);
      logs, trace := BatchDequeue(maxItems, arrivals);
      if logs != [] {
        ghost var more := PutAll(meanwhile, logs, Flushing, maxItems);
        ExecJoins(maxItems, start, trace, more);
        trace := trace + more;
        batches := batches + [Batch(logs, commits)];
        Snoc(maxItems, start, trace, Flush(commits));
        trace := trace + [Flush(commits)];
        more := MarkDone(maxItems, |logs|);
        ExecJoins(maxItems, start, trace, more);
        trace := trace + more;
      }
    }

    /** `task_done` for each record of the batch. */
    method MarkDone(limit: int, count: nat) returns (ghost trace: seq<Step>)
      modifies this`unfinished
      ensures unfinished == old(unfinished) - count
      ensures count > 0 ==> Exec(limit, old(View([], count, Marking)), trace) == View([], 0, Collecting)
    {
      ghost var start := View([], count, Marking);
      trace := [];
      for i := 0 to count
        invariant unfinished == old(unfinished) - i
        invariant Exec(limit, start, trace) == View([], count - i, if i == count && count > 0 then Collecting else Marking)
      {
        unfinished := unfinished - 1;
        Snoc(limit, start, trace, TaskDone);
        trace := trace + [TaskDone];
      }
    }
  }
}

/**
 * Slots leased from Redis by any number of nodes, and the ids the whole cluster issues. Every Redis command,
 * every generated id and every passage of time is one step; steps of different nodes interleave freely.
 */
module SnowflakeLease {
  import opened Options
  import opened Snowflake
  import opened SnowflakeId

  const NODE_TTL_MS: int := 60_000

  datatype Slot = Slot(datacenter: int, worker: int)

  predicate GoodSlot(s: Slot) {
    SlotInRange(s.datacenter, s.worker)
  }

  /** The order in which `acquire_node_id` tries the 1024 slots. */
  function SlotAt(i: nat): Slot {
    Slot(i / 32, i % 32)
  }

  lemma SlotOrder(s: Slot)
    requires GoodSlot(s)
    ensures var i := 32 * s.datacenter + s.worker; 0 <= i < 1024 && SlotAt(i) == s
  {
    Widths();
  }

  lemma SlotAtGood(i: nat)
    requires i < 1024
    ensures GoodSlot(SlotAt(i))
  {
    Widths();
  }

  // ---------------------------------------------------------------- the cluster

  datatype Lease = Lease(owner: nat, expires: int)

  datatype Node =
    | Idle
    | Scanning(occupied: set<Slot>)
    | Claiming(occupied: set<Slot>, index: nat)
    | Exhausted
    | Holding(slot: Slot, gen: Generator, renewed: int)
    | Stopped(slot: Slot, gen: Generator)
    | Crashed(slot: Slot)

  /** One id handed out by one node. */
  datatype Entry = Entry(node: nat, slot: Slot, timestamp: int, sequence: int, id: int)

  datatype Cluster = Cluster(now: int, keys: map<Slot, Lease>, nodes: map<nat, Node>, log: seq<Entry>)

  datatype Action =
    | Tick(ms: nat)
    | Boot(n: nat)
    | See(n: nat, slot: Slot)
    | ScanDone(n: nat)
    | Claim(n: nat)
    | Beat(n: nat)
    | Generate(n: nat, readings: seq<int>)
    | Shutdown(n: nat)
    | Crash(n: nat)

  function NodeOf(s: Cluster, n: nat): Node {
    if n in s.nodes then s.nodes[n] else Idle
  }

  function Put(s: Cluster, n: nat, node: Node): Cluster {
    s.(nodes := s.nodes[n := node])
  }

  /** Redis drops a key once its time to live has passed. */
  function Expire(keys: map<Slot, Lease>, now: int): map<Slot, Lease> {
    map k | k in keys && now < keys[k].expires :: keys[k]
  }

  function SetGen(node: Node, g: Generator): Node
    requires node.Holding? || node.Stopped?
  {
    match node
    case Holding(slot, _, renewed) => Holding(slot, g, renewed)
    case Stopped(slot, _) => Stopped(slot, g)
  }

  /** Shutting down does not reset the generator: a stopped node can still generate. */
  function DoGenerate(s: Cluster, n: nat, readings: seq<int>): Cluster {
    var node := NodeOf(s, n);
    if (node.Holding? || node.Stopped?) && Valid(node.gen) then
      var (g, outcome) := Step(node.gen, readings);
      var t := Put(s, n, SetGen(node, g));
      if outcome.Issued?
      then t.(log := t.log + [Entry(n, node.slot, g.last, g.sequence, outcome.id)])
      else t
    else s
  }

  /** One round of the search: skip a slot the scan saw, else `SET NX EX`. */
  function DoClaim(s: Cluster, n: nat, occupied: set<Slot>, i: nat): Cluster {
    if i >= 1024 then Put(s, n, Exhausted)
    else if SlotAt(i) in occupied || SlotAt(i) in s.keys then Put(s, n, Claiming(occupied, i + 1))
    else
      var slot := SlotAt(i);
      Put(s, n, Holding(slot, Fresh(slot.datacenter, slot.worker), s.now))
        .(keys := s.keys[slot := Lease(n, s.now + NODE_TTL_MS)])
  }

  /** A step that is not possible leaves the cluster as it is. */
  function Next(s: Cluster, a: Action): Cluster {
    match a
    case Tick(ms) => s.(now := s.now + ms, keys := Expire(s.keys, s.now + ms))
    case Boot(n) => if NodeOf(s, n).Idle? then Put(s, n, Scanning({})) else s
    case See(n, slot) =>
      var node := NodeOf(s, n);
      if node.Scanning? && slot in s.keys then Put(s, n, Scanning(node.occupied + {slot})) else s
    case ScanDone(n) =>
      var node := NodeOf(s, n);
      if node.Scanning? then Put(s, n, Claiming(node.occupied, 0)) else s
    case Claim(n) =>
      var node := NodeOf(s, n);
      if node.Claiming? then DoClaim(s, n, node.occupied, node.index) else s
    case Beat(n) =>
      var node := NodeOf(s, n);
      if !node.Holding? then s
      else
        // EXPIRE extends whatever key is there and does not bring a lost one back
        var t := Put(s, n, node.(renewed := s.now));
        if node.slot in s.keys
        then t.(keys := s.keys[node.slot := s.keys[node.slot].(expires := s.now + NODE_TTL_MS)])
        else t
    case Generate(n, readings) => DoGenerate(s, n, readings)
    case Shutdown(n) =>
      var node := NodeOf(s, n);
      if node.Holding? then Put(s, n, Stopped(node.slot, node.gen)).(keys := s.keys - {node.slot}) else s
    case Crash(n) =>
      var node := NodeOf(s, n);
      if node.Holding? then Put(s, n, Crashed(node.slot)) else s
  }

  const START: Cluster := Cluster(0, map[], map[], [])

  function Exec(run: seq<Action>): Cluster {
    if run == [] then START else Next(Exec(run[..|run| - 1]), run[|run| - 1])
  }

  // ---------------------------------------------------------------- what the steps do to the keys

  /** This node's next `SET NX` is of this slot, which its scan did not list. */
  predicate Tries(s: Cluster, n: nat, slot: Slot) {
    var node := NodeOf(s, n);
    node.Claiming? && node.index < 1024 && slot == SlotAt(node.index) && slot !in node.occupied
  }

  predicate Holds(s: Cluster, n: nat, slot: Slot) {
    NodeOf(s, n).Holding? && NodeOf(s, n).slot == slot
  }

  /** A key comes by a claim only, with the claiming node as its owner and sixty seconds to live. */
  lemma KeyBegins(s: Cluster, a: Action, slot: Slot)
    requires slot !in s.keys
    ensures slot in Next(s, a).keys <==> a.Claim? && Tries(s, a.n, slot)
    ensures slot in Next(s, a).keys ==>
      Next(s, a).keys[slot] == Lease(a.n, s.now + 60_000) && Holds(Next(s, a), a.n, slot)
  {
  }

  /** A key goes when its time is over, or when a holder of its slot shuts down, whoever owns the key. */
  lemma KeyEnds(s: Cluster, a: Action, slot: Slot)
    requires slot in s.keys
    ensures slot !in Next(s, a).keys <==>
      || (a.Tick? && s.keys[slot].expires <= s.now + a.ms)
      || (a.Shutdown? && Holds(s, a.n, slot))
  {
  }

  /** A key that stays keeps its owner, and only a heartbeat of a holder of its slot extends it. */
  lemma KeyStays(s: Cluster, a: Action, slot: Slot)
    requires slot in s.keys && slot in Next(s, a).keys
    ensures Next(s, a).keys[slot].owner == s.keys[slot].owner
    ensures Next(s, a).keys[slot].expires
         == if a.Beat? && Holds(s, a.n, slot) then s.now + 60_000 else s.keys[slot].expires
  {
  }

  /** A heartbeat neither brings a key back nor takes one away. */
  lemma BeatKeepsKeys(s: Cluster, n: nat)
    ensures Next(s, Beat(n)).keys.Keys == s.keys.Keys
  {
    forall slot ensures slot in Next(s, Beat(n)).keys <==> slot in s.keys {
      if slot in s.keys {
        KeyEnds(s, Beat(n), slot);
      } else {
        KeyBegins(s, Beat(n), slot);
      }
    }
  }

  /** Step k of the run registered this key, which was free. */
  predicate ClaimedAt(run: seq<Action>, k: nat, owner: nat, slot: Slot) {
    k < |run| && run[k] == Claim(owner) && slot !in Exec(run[..k]).keys && Tries(Exec(run[..k]), owner, slot)
  }

  /** A key that was not there, because it lapsed or was never taken, is there again only by its owner's claim. */
  lemma {:induction false} ComesBackByClaim(run: seq<Action>, i: nat, slot: Slot)
    requires i < |run| && slot !in Exec(run[..i]).keys && slot in Exec(run).keys
    ensures exists k :: i <= k && ClaimedAt(run, k, Exec(run).keys[slot].owner, slot)
    decreases |run|
  {
    var n := |run| - 1;
    var front := run[..n];
    assert front[..i] == run[..i];
    if i < n && slot in Exec(front).keys {
      KeyStays(Exec(front), run[n], slot);
      ComesBackByClaim(front, i, slot);
      var k :| i <= k && ClaimedAt(front, k, Exec(run).keys[slot].owner, slot);
      assert front[..k] == run[..k];
      assert ClaimedAt(run, k, Exec(run).keys[slot].owner, slot);
    } else {
      KeyBegins(Exec(front), run[n], slot);
      assert ClaimedAt(run, n, Exec(run).keys[slot].owner, slot);
    }
  }

  /** Every key of a reachable cluster was registered by its owner. */
  lemma EveryKeyWasClaimed(run: seq<Action>, slot: Slot)
    requires slot in Exec(run).keys
    ensures exists k :: ClaimedAt(run, k, Exec(run).keys[slot].owner, slot)
  {
    assert run[..0] == [];
    ComesBackByClaim(run, 0, slot);
  }

  // ---------------------------------------------------------------- what the steps do to a node

  /** A node in the middle of its search, or at its end. */
  lemma ClaimMoves(s: Cluster, n: nat, slot: Slot)
    requires NodeOf(s, n).Claiming? && NodeOf(s, n).index < 1024 && slot == SlotAt(NodeOf(s, n).index)
    ensures Holds(Next(s, Claim(n)), n, slot) <==> slot !in s.keys && slot !in NodeOf(s, n).occupied
    ensures !Holds(Next(s, Claim(n)), n, slot) ==>
      NodeOf(Next(s, Claim(n)), n) == Claiming(NodeOf(s, n).occupied, NodeOf(s, n).index + 1)
  {
  }

  /** Before it claims, a node notes the slots it finds taken, one by one. */
  lemma ScanMoves(s: Cluster, n: nat, slot: Slot)
    ensures NodeOf(s, n).Idle? ==> NodeOf(Next(s, Boot(n)), n) == Scanning({})
    ensures NodeOf(s, n).Scanning? ==>
      && NodeOf(Next(s, ScanDone(n)), n) == Claiming(NodeOf(s, n).occupied, 0)
      && NodeOf(Next(s, See(n, slot)), n)
         == Scanning(NodeOf(s, n).occupied + (if slot in s.keys then {slot} else {}))
  {
  }

  /** The log grows by the id that a holder's or a stopped node's generator issues. */
  lemma LogExactly(s: Cluster, a: Action)
    ensures var t := Next(s, a);
      if a.Generate? && (NodeOf(s, a.n).Holding? || NodeOf(s, a.n).Stopped?) && Valid(NodeOf(s, a.n).gen)
         && Step(NodeOf(s, a.n).gen, a.readings).1.Issued?
      then var (g, answer) := Step(NodeOf(s, a.n).gen, a.readings);
           t.log == s.log + [Entry(a.n, NodeOf(s, a.n).slot, g.last, g.sequence, answer.id)]
           && (NodeOf(t, a.n).Holding? || NodeOf(t, a.n).Stopped?) && NodeOf(t, a.n).gen == g
      else t.log == s.log
  {
  }

  /** A holder keeps its slot until it shuts down or dies; a heartbeat renews it, and only it generates ids. */
  lemma HolderMoves(s: Cluster, a: Action, n: nat)
    requires NodeOf(s, n).Holding?
    ensures var (before, after) := (NodeOf(s, n), NodeOf(Next(s, a), n));
      && (after.Holding? <==> a != Shutdown(n) && a != Crash(n))
      && (a == Shutdown(n) ==> after == Stopped(before.slot, before.gen))
      && (a == Crash(n) ==> after == Crashed(before.slot))
      && (after.Holding? ==>
            && after.slot == before.slot
            && after.renewed == (if a == Beat(n) then s.now else before.renewed)
            && ((!a.Generate? || a.n != n) ==> after.gen == before.gen))
  {
  }

  // ---------------------------------------------------------------- hypotheses on a run

  /** Every heartbeat of a holder lands before its lease runs out. */
  predicate LeaseKept(s: Cluster, a: Action) {
    a.Tick? ==> forall n :: n in s.nodes && s.nodes[n].Holding? ==> s.now + a.ms < s.nodes[n].renewed + NODE_TTL_MS
  }

  predicate HolderGenerates(s: Cluster, a: Action) {
    a.Generate? ==> !NodeOf(s, a.n).Stopped?
  }

  /** The first id of a slot's new holder carries a timestamp after all that the slot issued before. */
  predicate Succession(s: Cluster, a: Action) {
    var t := Next(s, a);
    |t.log| > |s.log| && (forall e :: e in s.log ==> e.node != a.n) ==>
      forall e :: e in s.log && e.slot == t.log[|s.log|].slot ==> e.timestamp < t.log[|s.log|].timestamp
  }

  predicate Timely(run: seq<Action>) {
    forall k :: 0 <= k < |run| ==> LeaseKept(Exec(run[..k]), run[k])
  }

  predicate Legal(s: Cluster, a: Action) {
    LeaseKept(s, a) && HolderGenerates(s, a) && Succession(s, a)
  }

  predicate HoldersGenerate(run: seq<Action>) {
    forall k :: 0 <= k < |run| ==> HolderGenerates(Exec(run[..k]), run[k])
  }

  predicate Succeeding(run: seq<Action>) {
    forall k :: 0 <= k < |run| ==> Succession(Exec(run[..k]), run[k])
  }

  predicate LegalRun(run: seq<Action>) {
    Timely(run) && HoldersGenerate(run) && Succeeding(run)
  }

  // ---------------------------------------------------------------- lease exclusion

  predicate HeldBy(s: Cluster, n: nat, node: Node) {
    node.Holding? ==>
      && GoodSlot(node.slot)
      && node.slot in s.keys
      && s.keys[node.slot] == Lease(n, node.renewed + NODE_TTL_MS)
      && s.now < node.renewed + NODE_TTL_MS
  }

  predicate Leases(s: Cluster) {
    forall n :: n in s.nodes ==> HeldBy(s, n, s.nodes[n])
  }

  lemma LeasesStep(s: Cluster, a: Action)
    requires Leases(s) && LeaseKept(s, a)
    ensures Leases(Next(s, a))
  {
    var t := Next(s, a);
    forall n | n in t.nodes ensures HeldBy(t, n, t.nodes[n]) {
      if a.Claim? && NodeOf(s, a.n).Claiming? && NodeOf(s, a.n).index < 1024 {
        SlotAtGood(NodeOf(s, a.n).index);
      }
      if n in s.nodes {
        assert HeldBy(s, n, s.nodes[n]);
        if !a.Tick? && a.n in s.nodes {
          assert HeldBy(s, a.n, s.nodes[a.n]);
        }
      }
    }
  }

  lemma {:induction false} TimelyLeases(run: seq<Action>)
    requires Timely(run)
    ensures Leases(Exec(run))
  {
    if run != [] {
      var front := run[..|run| - 1];
      assert forall k :: 0 <= k < |front| ==> front[..k] == run[..k];
      TimelyLeases(front);
      LeasesStep(Exec(front), run[|run| - 1]);
    }
  }

  lemma OneHolder(s: Cluster)
    requires Leases(s)
    ensures forall m, n :: NodeOf(s, m).Holding? && NodeOf(s, n).Holding? && NodeOf(s, m).slot == NodeOf(s, n).slot ==>
              m == n
  {
    forall m, n | NodeOf(s, m).Holding? && NodeOf(s, n).Holding? && NodeOf(s, m).slot == NodeOf(s, n).slot
      ensures m == n
    {
      assert HeldBy(s, m, s.nodes[m]) && HeldBy(s, n, s.nodes[n]);
    }
  }

  /** While every heartbeat lands in time, no two nodes hold the same slot, and every held slot is in range. */
  lemma LeaseExclusion(run: seq<Action>, m: nat, n: nat)
    requires Timely(run)
    requires NodeOf(Exec(run), m).Holding? && NodeOf(Exec(run), n).Holding?
    ensures GoodSlot(NodeOf(Exec(run), m).slot)
    ensures NodeOf(Exec(run), m).slot == NodeOf(Exec(run), n).slot ==> m == n
  {
    TimelyLeases(run);
    OneHolder(Exec(run));
    assert HeldBy(Exec(run), m, Exec(run).nodes[m]);
  }

  /** A node starts holding only by its own `SET NX`, on a slot in range that no key named. */
  lemma AcquiresOnlyByRegistering(s: Cluster, a: Action, n: nat)
    requires !NodeOf(s, n).Holding? && NodeOf(Next(s, a), n).Holding?
    ensures a == Claim(n)
    ensures var slot := NodeOf(Next(s, a), n).slot;
      GoodSlot(slot) && slot !in s.keys && Next(s, a).keys == s.keys[slot := Lease(n, s.now + NODE_TTL_MS)]
  {
    if NodeOf(s, n).Claiming? && NodeOf(s, n).index < 1024 {
      SlotAtGood(NodeOf(s, n).index);
    }
  }

  /** Some step of this run, taken while node n was inside `acquire_node_id`, found the slot's key present. */
  ghost predicate SeenTaken(run: seq<Action>, n: nat, slot: Slot) {
    exists k :: 0 <= k < |run| && slot in Exec(run[..k]).keys
      && (NodeOf(Exec(run[..k]), n).Scanning? || NodeOf(Exec(run[..k]), n).Claiming?)
  }

  ghost predicate SearchSound(run: seq<Action>, n: nat) {
    var node := NodeOf(Exec(run), n);
    && (node.Scanning? || node.Claiming? ==> AllTaken(run, n, node.occupied))
    && (node.Claiming? ==> FirstTaken(run, n, node.index))
    && (node.Exhausted? ==> FirstTaken(run, n, 1024))
  }

  ghost predicate AllTaken(run: seq<Action>, n: nat, slots: set<Slot>) {
    forall slot :: slot in slots ==> SeenTaken(run, n, slot)
  }

  /** So were the first slots of the search. */
  ghost predicate FirstTaken(run: seq<Action>, n: nat, index: nat) {
    forall i: nat :: i < index && i < 1024 ==> SeenTaken(run, n, SlotAt(i))
  }

  lemma SeenTakenGrows(front: seq<Action>, a: Action, n: nat, slot: Slot)
    requires SeenTaken(front, n, slot)
    ensures SeenTaken(front + [a], n, slot)
  {
    var k :| 0 <= k < |front| && slot in Exec(front[..k]).keys
      && (NodeOf(Exec(front[..k]), n).Scanning? || NodeOf(Exec(front[..k]), n).Claiming?);
    assert (front + [a])[..k] == front[..k];
  }

  lemma SeenNow(front: seq<Action>, a: Action, n: nat, slot: Slot)
    requires slot in Exec(front).keys
    requires NodeOf(Exec(front), n).Scanning? || NodeOf(Exec(front), n).Claiming?
    ensures SeenTaken(front + [a], n, slot)
  {
    assert (front + [a])[..|front|] == front;
  }

  /** What one step can do to a node that is searching. */
  lemma SearchMoves(s: Cluster, a: Action, n: nat)
    ensures var (before, after) := (NodeOf(s, n), NodeOf(Next(s, a), n));
      && (after.Scanning? ==>
            || before == after
            || after.occupied == {}
            || (before.Scanning? && a.See? && a.slot in s.keys && after.occupied == before.occupied + {a.slot}))
      && (after.Claiming? ==>
            || before == after
            || (before.Scanning? && after == Claiming(before.occupied, 0))
            || (before.Claiming? && before.index < 1024 && after == Claiming(before.occupied, before.index + 1)
                && (SlotAt(before.index) in before.occupied || SlotAt(before.index) in s.keys)))
      && (after.Exhausted? ==> before == after || (before.Claiming? && before.index >= 1024))
  {
  }

  lemma {:induction false} SearchInvariant(run: seq<Action>, n: nat)
    ensures SearchSound(run, n)
  {
    if run != [] {
      var front, a := run[..|run| - 1], run[|run| - 1];
      assert run == front + [a];
      SearchInvariant(front, n);
      SearchStep(front, a, n);
    }
  }

  lemma SearchStep(front: seq<Action>, a: Action, n: nat)
    requires SearchSound(front, n)
    ensures SearchSound(front + [a], n)
  {
    var run := front + [a];
    assert run[..|front|] == front;
    var s := Exec(front);
    var before, after := NodeOf(s, n), NodeOf(Exec(run), n);
    SearchMoves(s, a, n);
    TakenGrows(front, a, n);
    if before.Scanning? && a.See? && a.slot in s.keys {
      SeenNow(front, a, n, a.slot);
    }
    if before.Claiming? && before.index < 1024 && SlotAt(before.index) in s.keys {
      SeenNow(front, a, n, SlotAt(before.index));
    }
  }

  lemma TakenGrows(front: seq<Action>, a: Action, n: nat)
    ensures forall slots :: AllTaken(front, n, slots) ==> AllTaken(front + [a], n, slots)
    ensures forall index :: FirstTaken(front, n, index) ==> FirstTaken(front + [a], n, index)
  {
    forall slot | SeenTaken(front, n, slot) ensures SeenTaken(front + [a], n, slot) {
      SeenTakenGrows(front, a, n, slot);
    }
  }

  /** The search fails only if each of the 1024 slots was seen taken during that very call. */
  lemma ExhaustedSawEverySlot(run: seq<Action>, n: nat, slot: Slot)
    requires NodeOf(Exec(run), n).Exhausted? && GoodSlot(slot)
    ensures SeenTaken(run, n, slot)
  {
    SearchInvariant(run, n);
    SlotOrder(slot);
  }

  // ---------------------------------------------------------------- ids across the cluster

  predicate EntryGood(e: Entry) {
    && InRange(Fields(e.timestamp, e.slot.datacenter, e.slot.worker, e.sequence))
    && e.id == Pack(Fields(e.timestamp, e.slot.datacenter, e.slot.worker, e.sequence))
  }

  /** An entry's node is still the holder of that slot, at or past the entry, or will not generate again. */
  predicate Accounted(s: Cluster, e: Entry) {
    var node := NodeOf(s, e.node);
    match node
    case Holding(slot, g, _) =>
      slot == e.slot && (e.timestamp < g.last || (e.timestamp == g.last && (g.busy || e.sequence <= g.sequence)))
    case Stopped(slot, _) => slot == e.slot
    case Crashed(slot) => slot == e.slot
    case _ => false
  }

  predicate GeneratorGood(node: Node) {
    node.Holding? ==>
      && Valid(node.gen) && node.gen.initialized
      && node.gen.datacenter == node.slot.datacenter && node.gen.worker == node.slot.worker
  }

  /** Per slot, the log is in strictly increasing order of timestamp and sequence. */
  predicate LogOrdered(log: seq<Entry>) {
    forall j, k :: 0 <= j < k < |log| && log[j].slot == log[k].slot ==>
      Before(log[j].timestamp, log[j].sequence, log[k].timestamp, log[k].sequence)
  }

  /** A holder that has already issued is past everything its slot ever issued. */
  predicate HolderLeads(s: Cluster) {
    forall d, f :: d in s.log && f in s.log && d.slot == f.slot && d.node != f.node && NodeOf(s, d.node).Holding? ==>
      f.timestamp < d.timestamp
  }

  predicate Inv(s: Cluster) {
    && Leases(s)
    && (forall n :: n in s.nodes ==> GeneratorGood(s.nodes[n]))
    && (forall e :: e in s.log ==> EntryGood(e) && Accounted(s, e))
    && LogOrdered(s.log)
    && HolderLeads(s)
  }

  /** A step that issues nothing keeps the invariant if each entry stays accounted for and no node starts over. */
  lemma KeepsInv(s: Cluster, t: Cluster)
    requires Inv(s) && Leases(t) && t.log == s.log
    requires forall n :: n in t.nodes ==> GeneratorGood(t.nodes[n])
    requires forall e :: e in s.log ==> Accounted(t, e)
    requires forall e :: e in s.log && NodeOf(t, e.node).Holding? ==> NodeOf(s, e.node).Holding?
    ensures Inv(t)
  {
  }

  /** The nodes' memories stay as they are, except for a heartbeat's time. */
  lemma TickOrBeatStep(s: Cluster, a: Action)
    requires Inv(s) && LeaseKept(s, a) && (a.Tick? || a.Beat?)
    ensures Inv(Next(s, a))
  {
    LeasesStep(s, a);
    forall e | e in s.log ensures Accounted(Next(s, a), e) {
      assert Accounted(s, e);
    }
    KeepsInv(s, Next(s, a));
  }

  /** A node that is searching has issued nothing. */
  lemma SearchingStep(s: Cluster, a: Action)
    requires Inv(s) && (a.Boot? || a.See? || a.ScanDone?)
    ensures Inv(Next(s, a))
  {
    LeasesStep(s, a);
    forall e | e in s.log ensures Accounted(Next(s, a), e) {
      assert Accounted(s, e);
    }
    KeepsInv(s, Next(s, a));
  }

  /** A node that has just claimed a slot has issued nothing yet. */
  lemma ClaimStep(s: Cluster, n: nat)
    requires Inv(s)
    ensures Inv(Next(s, Claim(n)))
  {
    LeasesStep(s, Claim(n));
    MaskValue();
    forall e | e in s.log ensures Accounted(Next(s, Claim(n)), e) {
      assert Accounted(s, e);
    }
    if NodeOf(s, n).Claiming? && NodeOf(s, n).index < 1024 {
      SlotAtGood(NodeOf(s, n).index);
    }
    forall e | e in s.log && NodeOf(Next(s, Claim(n)), e.node).Holding? ensures NodeOf(s, e.node).Holding? {
      assert Accounted(s, e);
    }
    KeepsInv(s, Next(s, Claim(n)));
  }

  lemma LeavingStep(s: Cluster, a: Action)
    requires Inv(s) && (a.Shutdown? || a.Crash?)
    ensures Inv(Next(s, a))
  {
    LeasesStep(s, a);
    forall e | e in s.log ensures Accounted(Next(s, a), e) {
      assert Accounted(s, e);
    }
    KeepsInv(s, Next(s, a));
  }

  lemma QuietStep(s: Cluster, a: Action)
    requires Inv(s) && LeaseKept(s, a) && !a.Generate?
    ensures Inv(Next(s, a))
  {
    match a
    case Tick(_) => TickOrBeatStep(s, a);
    case Beat(_) => TickOrBeatStep(s, a);
    case Claim(n) => ClaimStep(s, n);
    case Shutdown(_) => LeavingStep(s, a);
    case Crash(_) => LeavingStep(s, a);
    case _ => SearchingStep(s, a);
  }

  /** The new entry comes after everything its slot issued before. */
  lemma IssueIsLast(s: Cluster, n: nat, readings: seq<int>, e: Entry)
    requires Inv(s) && Legal(s, Generate(n, readings)) && e in s.log
    requires NodeOf(s, n).Holding? && Step(NodeOf(s, n).gen, readings).1.Issued?
    requires e.slot == NodeOf(s, n).slot
    ensures var g := Step(NodeOf(s, n).gen, readings).0;
      && Before(e.timestamp, e.sequence, g.last, g.sequence)
      && (e.node != n ==> e.timestamp < g.last)
  {
    var node := NodeOf(s, n);
    StepAdvances(node.gen, readings);
    assert Accounted(s, e);
    if e.node != n {
      if d :| d in s.log && d.node == n {
        assert Accounted(s, d);
        assert d.slot == e.slot;
        assert e.timestamp < d.timestamp;
      } else {
        assert Next(s, Generate(n, readings)).log[|s.log|].slot == e.slot;
      }
    }
  }

  lemma StillAccounted(s: Cluster, n: nat, readings: seq<int>, e: Entry)
    requires Inv(s) && Legal(s, Generate(n, readings)) && NodeOf(s, n).Holding? && e in s.log
    ensures Accounted(Next(s, Generate(n, readings)), e)
  {
    assert Accounted(s, e);
    StepAdvances(NodeOf(s, n).gen, readings);
    if e.node == n && Step(NodeOf(s, n).gen, readings).1.Issued? {
      IssueIsLast(s, n, readings, e);
    }
  }

  lemma OrderedSnoc(log: seq<Entry>, last: Entry)
    requires LogOrdered(log)
    requires forall e :: e in log && e.slot == last.slot ==>
      Before(e.timestamp, e.sequence, last.timestamp, last.sequence)
    ensures LogOrdered(log + [last])
  {
    forall j | 0 <= j < |log| ensures (log + [last])[j] in log {
      assert (log + [last])[j] == log[j];
    }
  }

  /** A call that issues an id. */
  lemma IssueStep(s: Cluster, n: nat, readings: seq<int>)
    requires Inv(s) && Legal(s, Generate(n, readings)) && NodeOf(s, n).Holding?
    requires Step(NodeOf(s, n).gen, readings).1.Issued?
    ensures Inv(Next(s, Generate(n, readings)))
  {
    var node, t := NodeOf(s, n), Next(s, Generate(n, readings));
    LeasesStep(s, Generate(n, readings));
    StepAdvances(node.gen, readings);
    var (g, outcome) := Step(node.gen, readings);
    var last := Entry(n, node.slot, g.last, g.sequence, outcome.id);
    assert t.log == s.log + [last];
    assert EntryGood(last) && Accounted(t, last);
    forall e | e in s.log
      ensures Accounted(t, e)
      ensures e.slot == last.slot ==>
        Before(e.timestamp, e.sequence, g.last, g.sequence) && (e.node != n ==> e.timestamp < g.last)
    {
      StillAccounted(s, n, readings, e);
      if e.slot == last.slot {
        IssueIsLast(s, n, readings, e);
      }
    }
    OrderedSnoc(s.log, last);
    LeadsAfter(s, t, last);
  }

  lemma GenerateStep(s: Cluster, n: nat, readings: seq<int>)
    requires Inv(s) && Legal(s, Generate(n, readings))
    ensures Inv(Next(s, Generate(n, readings)))
  {
    var node, t := NodeOf(s, n), Next(s, Generate(n, readings));
    if node.Holding? {
      StepAdvances(node.gen, readings);
      if Step(node.gen, readings).1.Issued? {
        IssueStep(s, n, readings);
      } else {
        LeasesStep(s, Generate(n, readings));
        forall e | e in s.log ensures Accounted(t, e) {
          StillAccounted(s, n, readings, e);
        }
        KeepsInv(s, t);
      }
    }
  }

  lemma LeadsAfter(s: Cluster, t: Cluster, last: Entry)
    requires Inv(s) && t.log == s.log + [last]
    requires NodeOf(s, last.node).Holding? && NodeOf(s, last.node).slot == last.slot
    requires forall m :: m != last.node ==> NodeOf(t, m) == NodeOf(s, m)
    requires forall e :: e in s.log && e.slot == last.slot && e.node != last.node ==> e.timestamp < last.timestamp
    ensures HolderLeads(t)
  {
    OneHolder(s);
    forall d, f | d in t.log && f in t.log && d.slot == f.slot && d.node != f.node && NodeOf(t, d.node).Holding?
      ensures f.timestamp < d.timestamp
    {
      if d != last {
        assert Accounted(s, d);
        assert d.slot != last.slot || d.node == last.node;
      }
    }
  }

  lemma {:induction false} LegalInv(run: seq<Action>)
    requires LegalRun(run)
    ensures Inv(Exec(run))
  {
    if run != [] {
      var front, a := run[..|run| - 1], run[|run| - 1];
      assert forall k :: 0 <= k < |front| ==> front[..k] == run[..k];
      LegalInv(front);
      if a.Generate? {
        GenerateStep(Exec(front), a.n, a.readings);
      } else {
        QuietStep(Exec(front), a);
      }
    }
  }

  /** All ids ever issued across the cluster are pairwise distinct. */
  lemma ClusterIdsDistinct(run: seq<Action>, j: nat, k: nat)
    requires LegalRun(run) && j < k < |Exec(run).log|
    ensures Exec(run).log[j].id != Exec(run).log[k].id
  {
    LegalInv(run);
    var d, e := Exec(run).log[j], Exec(run).log[k];
    assert EntryGood(d) && EntryGood(e);
    PackInjective(Fields(d.timestamp, d.slot.datacenter, d.slot.worker, d.sequence),
                  Fields(e.timestamp, e.slot.datacenter, e.slot.worker, e.sequence));
  }

  // ---------------------------------------------------------------- each hypothesis is needed

  predicate HasDuplicate(s: Cluster) {
    exists j, k :: 0 <= j < k < |s.log| && s.log[j].id == s.log[k].id
  }

  /** Some run ends in s and meets the hypotheses that are asked for. */
  ghost predicate Reached(s: Cluster, lease: bool, holder: bool, succession: bool) {
    exists run :: Exec(run) == s
      && (lease ==> Timely(run)) && (holder ==> HoldersGenerate(run)) && (succession ==> Succeeding(run))
  }

  lemma Extend(s: Cluster, a: Action, lease: bool, holder: bool, succession: bool)
    requires Reached(s, lease, holder, succession)
    requires lease ==> LeaseKept(s, a)
    requires holder ==> HolderGenerates(s, a)
    requires succession ==> Succession(s, a)
    ensures Reached(Next(s, a), lease, holder, succession)
  {
    var run :| Exec(run) == s
      && (lease ==> Timely(run)) && (holder ==> HoldersGenerate(run)) && (succession ==> Succeeding(run));
    var all := run + [a];
    assert all[..|run|] == run;
    assert forall k :: 0 <= k < |run| ==> all[..k] == run[..k] && all[k] == run[k];
    assert Exec(all) == Next(s, a);
  }

  function Taken(s: Cluster, n: nat): Cluster {
    Put(s, n, Holding(Slot(0, 0), Fresh(0, 0), s.now)).(keys := s.keys[Slot(0, 0) := Lease(n, s.now + NODE_TTL_MS)])
  }

  /** Only time and generating are restricted by the hypotheses. */
  lemma Unrestricted(s: Cluster, a: Action)
    requires !a.Tick? && !a.Generate?
    ensures LeaseKept(s, a) && HolderGenerates(s, a) && Succession(s, a)
  {
  }

  lemma FirstSlotSteps(s: Cluster, n: nat)
    requires NodeOf(s, n).Idle? && Slot(0, 0) !in s.keys
    ensures Next(s, Boot(n)) == Put(s, n, Scanning({}))
    ensures Next(Put(s, n, Scanning({})), ScanDone(n)) == Put(s, n, Claiming({}, 0))
    ensures Next(Put(s, n, Claiming({}, 0)), Claim(n)) == Taken(s, n)
  {
    assert SlotAt(0) == Slot(0, 0);
    var held := Holding(Slot(0, 0), Fresh(0, 0), s.now);
    assert s.nodes[n := Scanning({})][n := Claiming({}, 0)] == s.nodes[n := Claiming({}, 0)];
    assert s.nodes[n := Claiming({}, 0)][n := held] == s.nodes[n := held];
  }

  /** Node n finds the first slot free and takes it. */
  lemma TakeFirstSlot(s: Cluster, n: nat, lease: bool, holder: bool, succession: bool)
    requires Reached(s, lease, holder, succession) && NodeOf(s, n).Idle? && Slot(0, 0) !in s.keys
    ensures Reached(Taken(s, n), lease, holder, succession)
  {
    FirstSlotSteps(s, n);
    var s1, s2 := Put(s, n, Scanning({})), Put(s, n, Claiming({}, 0));
    Unrestricted(s, Boot(n));
    Extend(s, Boot(n), lease, holder, succession);
    Unrestricted(s1, ScanDone(n));
    Extend(s1, ScanDone(n), lease, holder, succession);
    Unrestricted(s2, Claim(n));
    Extend(s2, Claim(n), lease, holder, succession);
  }

  function IssuedAt(s: Cluster, n: nat, t: int): Cluster
    requires NodeOf(s, n).Holding? || NodeOf(s, n).Stopped?
  {
    Put(s, n, SetGen(NodeOf(s, n), Fresh(0, 0).(last := t)))
      .(log := s.log + [Entry(n, Slot(0, 0), t, 0, Pack(Fields(t, 0, 0, 0)))])
  }

  /** A reading later than the last one is issued as sequence 0. */
  lemma IssueAt(s: Cluster, n: nat, t: int, lease: bool, holder: bool, succession: bool)
    requires Reached(s, lease, holder, succession)
    requires var node := NodeOf(s, n);
      && (node.Holding? || node.Stopped?) && node.slot == Slot(0, 0)
      && node.gen == Fresh(0, 0).(last := node.gen.last) && node.gen.last < t
    requires holder ==> NodeOf(s, n).Holding?
    requires succession ==> forall e :: e in s.log && e.node != n ==> e.timestamp < t
    ensures Reached(IssuedAt(s, n, t), lease, holder, succession)
  {
    var node := NodeOf(s, n);
    assert Valid(node.gen) by { MaskValue(); Widths(); }
    assert Choose(node.gen, [t]) == Some((t, 0));
    assert Next(s, Generate(n, [t])) == IssuedAt(s, n, t);
    Extend(s, Generate(n, [t]), lease, holder, succession);
  }

  function At(t: int): Generator {
    Fresh(0, 0).(last := t)
  }

  function Id(n: nat, t: int): Entry {
    Entry(n, Slot(0, 0), t, 0, Pack(Fields(t, 0, 0, 0)))
  }

  /** Node 0 holds the first slot and has issued one id. */
  function FirstHolder(t: int): Cluster {
    Cluster(0, map[Slot(0, 0) := Lease(0, NODE_TTL_MS)], map[0 := Holding(Slot(0, 0), At(t), 0)], [Id(0, t)])
  }

  lemma FirstHolderReached(t: nat, lease: bool, holder: bool, succession: bool)
    ensures Reached(FirstHolder(t), lease, holder, succession)
  {
    assert Exec([]) == START && Timely([]) && HoldersGenerate([]) && Succeeding([]);
    TakeFirstSlot(START, 0, lease, holder, succession);
    IssueAt(Taken(START, 0), 0, t, lease, holder, succession);
    assert IssuedAt(Taken(START, 0), 0, t) == FirstHolder(t);
  }

  /** Node 1 took the slot after node 0, which is now in state `former`, and has issued one id too. */
  function SecondHolder(now: int, former: Node, t: int, u: int): Cluster {
    Cluster(now, map[Slot(0, 0) := Lease(1, now + NODE_TTL_MS)],
            map[0 := former, 1 := Holding(Slot(0, 0), At(u), now)], [Id(0, t), Id(1, u)])
  }

  function Vacant(now: int, former: Node, t: int): Cluster {
    Cluster(now, map[], map[0 := former], [Id(0, t)])
  }

  lemma SecondHolderIs(now: int, former: Node, t: int, u: int)
    ensures var s := Taken(Vacant(now, former, t), 1);
      && NodeOf(s, 1) == Holding(Slot(0, 0), Fresh(0, 0), now)
      && s.log == [Id(0, t)]
      && IssuedAt(s, 1, u) == SecondHolder(now, former, t, u)
  {
    var s := Taken(Vacant(now, former, t), 1);
    assert s.nodes == map[0 := former, 1 := Holding(Slot(0, 0), Fresh(0, 0), now)];
    assert s.log + [Id(1, u)] == [Id(0, t), Id(1, u)];
  }

  lemma SecondHolderReached(now: int, former: Node, t: nat, u: nat, lease: bool, holder: bool, succession: bool)
    requires Reached(Vacant(now, former, t), lease, holder, succession)
    requires succession ==> t < u
    ensures Reached(SecondHolder(now, former, t, u), lease, holder, succession)
  {
    TakeFirstSlot(Vacant(now, former, t), 1, lease, holder, succession);
    SecondHolderIs(now, former, t, u);
    IssueAt(Taken(Vacant(now, former, t), 1), 1, u, lease, holder, succession);
  }

  lemma FormerIssues(now: int, former: Node, t: nat, u: nat, lease: bool, holder: bool, succession: bool)
    requires Reached(SecondHolder(now, former, t, u), lease, holder, succession) && t < u
    requires former == Holding(Slot(0, 0), At(t), 0) || (former == Stopped(Slot(0, 0), At(t)) && !holder)
    ensures exists s :: Reached(s, lease, holder, succession) && HasDuplicate(s)
  {
    var s := SecondHolder(now, former, t, u);
    assert Id(0, t) in s.log && Id(0, t).node == 0;
    Extend(s, Generate(0, [u]), lease, holder, succession) by {
      assert |Next(s, Generate(0, [u])).log| > |s.log| && (forall e :: e in s.log ==> e.node != 0) ==> false;
    }
    assert Valid(former.gen) by { MaskValue(); Widths(); }
    assert Choose(former.gen, [u]) == Some((u, 0));
    var s' := Next(s, Generate(0, [u]));
    assert s'.log[2] == Id(0, u) && s'.log[1] == Id(1, u);
  }

  /** A holder whose lease lapsed goes on using its slot beside the new holder. */
  lemma LapsedLeaseDuplicates(t: nat)
    ensures exists s :: Reached(s, false, true, true) && HasDuplicate(s)
  {
    FirstHolderReached(t, false, true, true);
    var s, former := FirstHolder(t), Holding(Slot(0, 0), At(t), 0);
    Extend(s, Tick(60_000), false, true, true);
    assert Next(s, Tick(60_000)) == Vacant(60_000, former, t);
    SecondHolderReached(60_000, former, t, t + 1, false, true, true);
    FormerIssues(60_000, former, t, t + 1, false, true, true);
  }

  lemma ShutdownReached(t: nat, lease: bool, holder: bool, succession: bool)
    ensures Reached(Vacant(0, Stopped(Slot(0, 0), At(t)), t), lease, holder, succession)
  {
    FirstHolderReached(t, lease, holder, succession);
    var s := FirstHolder(t);
    Extend(s, Shutdown(0), lease, holder, succession);
    assert Next(s, Shutdown(0)) == Vacant(0, Stopped(Slot(0, 0), At(t)), t);
  }

  /** `last_timestamp` is not kept across holders: a slower clock repeats the slot's ids. */
  lemma ReusedSlotDuplicates(t: nat)
    ensures exists s :: Reached(s, true, true, false) && HasDuplicate(s)
  {
    ShutdownReached(t, true, true, false);
    var former := Stopped(Slot(0, 0), At(t));
    SecondHolderReached(0, former, t, t, true, true, false);
    var s := SecondHolder(0, former, t, t);
    assert s.log[0].id == s.log[1].id;
  }

  /** A generator that is used after its node was released repeats ids of the slot's new holder. */
  lemma GenerateAfterShutdownDuplicates(t: nat)
    ensures exists s :: Reached(s, true, false, true) && HasDuplicate(s)
  {
    ShutdownReached(t, true, false, true);
    var former := Stopped(Slot(0, 0), At(t));
    SecondHolderReached(0, former, t, t + 1, true, false, true);
    FormerIssues(0, former, t, t + 1, true, false, true);
  }

  // ---------------------------------------------------------------- the node manager's own code

  /** Any further steps from any state of the cluster. */
  function After(s: Cluster, run: seq<Action>): Cluster {
    if run == [] then s else Next(After(s, run[..|run| - 1]), run[|run| - 1])
  }

  lemma AfterSnoc(s: Cluster, run: seq<Action>, a: Action)
    ensures After(s, run + [a]) == Next(After(s, run), a)
  {
    assert (run + [a])[..|run|] == run;
  }

  lemma {:induction false} AfterJoins(s: Cluster, a: seq<Action>, b: seq<Action>)
    ensures After(s, a + b) == After(After(s, a), b)
  {
    if b == [] {
      assert a + b == a;
    } else {
      var n := |b| - 1;
      AfterJoins(s, a, b[..n]);
      AfterSnoc(s, a + b[..n], b[n]);
      assert a + b == a + b[..n] + [b[n]];
    }
  }

  /** Steps added to a run of the cluster give a run of the cluster. */
  lemma {:induction false} ExecAfter(run: seq<Action>, more: seq<Action>)
    ensures Exec(run + more) == After(Exec(run), more)
  {
    if more == [] {
      assert run + more == run;
    } else {
      var n := |more| - 1;
      ExecAfter(run, more[..n]);
      assert (run + more)[..|run + more| - 1] == run + more[..n];
    }
  }

  /** Time passes, or another node does something. */
  predicate Elsewhere(a: Action, n: nat) {
    a.Tick? || a.n != n
  }

  lemma ElsewhereStep(s: Cluster, a: Action, n: nat)
    requires Elsewhere(a, n)
    ensures NodeOf(Next(s, a), n) == NodeOf(s, n)
  {
  }

  lemma {:induction false} ElsewhereKeeps(s: Cluster, run: seq<Action>, n: nat)
    requires forall a :: a in run ==> Elsewhere(a, n)
    ensures NodeOf(After(s, run), n) == NodeOf(s, n)
  {
    if run != [] {
      ElsewhereKeeps(s, run[..|run| - 1], n);
      assert run[|run| - 1] in run;
      ElsewhereStep(After(s, run[..|run| - 1]), run[|run| - 1], n);
    }
  }

  /**
   * Redis, its clock, and what every node remembers. The node whose code runs keeps its own memory in step with
   * its local variables; between any two of its commands the other nodes do what they like.
   */
  class NodeRegistry {
    var now: int
    var keys: map<Slot, Lease>
    var nodes: map<nat, Node>
    var log: seq<Entry>

    function View(): Cluster
      reads this
    {
      Cluster(now, keys, nodes, log)
    }

    constructor ()
      ensures View() == START
    {
      now, keys, nodes, log := 0, map[], map[], [];
    }

    /** One step of any node, or of the clock. */
    method Apply(a: Action)
      modifies this
      ensures View() == Next(old(View()), a)
    {
      var t := Next(View(), a);
      now, keys, nodes, log := t.now, t.keys, t.nodes, t.log;
    }

    /** Any number of steps of the other nodes and of the clock. */
    method Meanwhile(n: nat) returns (ghost trace: seq<Action>)
      modifies this
      ensures View() == After(old(View()), trace) && NodeOf(View(), n) == NodeOf(old(View()), n)
    {
      ghost var start := View();
      trace := [];
      var count: int := *;
      while count > 0
        invariant View() == After(start, trace) && forall a :: a in trace ==> Elsewhere(a, n)
      {
        var a: Action := *;
        if Elsewhere(a, n) {
          AfterSnoc(start, trace, a);
          trace := trace + [a];
          Apply(a);
        }
        count := count - 1;
      }
      ElsewhereKeeps(start, trace, n);
    }

    method SetNxEx(slot: Slot, owner: nat) returns (ok: bool)
      modifies this`keys
      ensures ok <==> slot !in old(keys)
      ensures keys == if ok then old(keys)[slot := Lease(owner, now + NODE_TTL_MS)] else old(keys)
    {
      ok := slot !in keys;
      if ok {
        keys := keys[slot := Lease(owner, now + NODE_TTL_MS)];
      }
    }

    /** Lists occupied slots one by one; a key may come or go while the listing runs. */
    method ScanNodes(n: nat) returns (occupied: set<Slot>, ghost trace: seq<Action>)
      requires NodeOf(View(), n) == Scanning({})
      modifies this
      ensures View() == After(old(View()), trace) && NodeOf(View(), n) == Scanning(occupied)
    {
      ghost var start := View();
      occupied, trace := {}, [];
      var count: int := *;
      while count > 0
        invariant View() == After(start, trace) && NodeOf(View(), n) == Scanning(occupied)
      {
        ghost var more := Meanwhile(n);
        AfterJoins(start, trace, more);
        trace := trace + more;
        var slot: Slot := *;
        if slot in keys {
          AfterSnoc(start, trace, See(n, slot));
          trace := trace + [See(n, slot)];
          Apply(See(n, slot));
          occupied := occupied + {slot};
        }
        count := count - 1;
      }
    }

    /** Lists the occupied slots and starts to search. */
    method BeginSearch(n: nat) returns (occupied: set<Slot>, ghost trace: seq<Action>)
      requires NodeOf(View(), n).Idle?
      modifies this
      ensures View() == After(old(View()), trace) && NodeOf(View(), n) == Claiming(occupied, 0)
    {
      ghost var start := View();
      AfterSnoc(start, [], Boot(n));
      trace := [] + [Boot(n)];
      Apply(Boot(n));
      ghost var more;
      occupied, more := ScanNodes(n);
      AfterJoins(start, trace, more);
      AfterSnoc(start, trace + more, ScanDone(n));
      trace := trace + more + [ScanDone(n)];
      Apply(ScanDone(n));
    }

    /** One round of the search: a slot that the scan did not list is claimed. */
    method TrySlot(n: nat, occupied: set<Slot>, index: nat) returns (ok: bool)
      requires index < 1024 && NodeOf(View(), n) == Claiming(occupied, index)
      modifies this`keys, this`nodes
      ensures View() == Next(old(View()), Claim(n))
      ensures if ok then NodeOf(View(), n).Holding? && NodeOf(View(), n).slot == SlotAt(index)
              else NodeOf(View(), n) == Claiming(occupied, index + 1)
    {
      var slot := SlotAt(index);
      ok := false;
      if slot !in occupied {
        ok := SetNxEx(slot, n);
      }
      nodes := nodes[n := if ok then Holding(slot, Fresh(slot.datacenter, slot.worker), now)
                          else Claiming(occupied, index + 1)];
    }

    /** What others do in the meantime, and then one round of the search. */
    method SearchRound(n: nat, occupied: set<Slot>, index: nat) returns (ok: bool, ghost trace: seq<Action>)
      requires index < 1024 && NodeOf(View(), n) == Claiming(occupied, index)
      modifies this
      ensures View() == After(old(View()), trace)
      ensures if ok then NodeOf(View(), n).Holding? && NodeOf(View(), n).slot == SlotAt(index) && GoodSlot(SlotAt(index))
              else NodeOf(View(), n) == Claiming(occupied, index + 1)
    {
      ghost var start := View();
      trace := Meanwhile(n);
      AfterSnoc(start, trace, Claim(n));
      trace := trace + [Claim(n)];
      SlotAtGood(index);
      ok := TrySlot(n, occupied, index);
    }

    /**
     * With any steps of other nodes between its own commands: what the call does is a run of the cluster; it
     * returns the slot that the node then holds, or raises when the search has passed all 1024 slots.
     */
    method AcquireNodeId(n: nat) returns (r: Option<Slot>, ghost trace: seq<Action>)
      requires NodeOf(View(), n).Idle?
      modifies this
      ensures View() == After(old(View()), trace)
      ensures r.Some? ==> NodeOf(View(), n).Holding? && NodeOf(View(), n).slot == r.value && GoodSlot(r.value)
      ensures r.None? ==> NodeOf(View(), n).Exhausted?
    {
      Widths();
      ghost var start := View();
      ghost var more;
      var occupied;
      occupied, trace := BeginSearch(n);
      for datacenter := 0 to MAX_DATACENTER_ID + 1
        invariant View() == After(start, trace) && NodeOf(View(), n) == Claiming(occupied, 32 * datacenter)
      {
        for worker := 0 to MAX_WORKER_ID + 1
          invariant View() == After(start, trace) && NodeOf(View(), n) == Claiming(occupied, 32 * datacenter + worker)
        {
          var ok;
          ok, more := SearchRound(n, occupied, 32 * datacenter + worker);
          AfterJoins(start, trace, more);
          trace := trace + more;
          if ok {
            return Some(SlotAt(32 * datacenter + worker)), trace;
          }
        }
      }
      AfterSnoc(start, trace, Claim(n));
      trace := trace + [Claim(n)];
      Apply(Claim(n));
      r := None;
    }

    /** One heartbeat: EXPIRE on the slot's key, if there still is one. */
    method Heartbeat(n: nat)
      requires NodeOf(View(), n).Holding?
      modifies this`keys, this`nodes
      ensures View() == Next(old(View()), Beat(n))
    {
      var node := nodes[n];
      if node.slot in keys {
        keys := keys[node.slot := keys[node.slot].(expires := now + NODE_TTL_MS)];
      }
      nodes := nodes[n := node.(renewed := now)];
    }

    /** Deletes the slot's key, whoever owns it by now. */
    method Release(n: nat)
      requires NodeOf(View(), n).Holding?
      modifies this`keys, this`nodes
      ensures View() == Next(old(View()), Shutdown(n)) && keys == old(keys) - {old(nodes)[n].slot}
    {
      var node := nodes[n];
      keys := keys - {node.slot};
      nodes := nodes[n := Stopped(node.slot, node.gen)];
    }
  }
}

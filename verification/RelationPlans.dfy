/** What a list of relations means: the kind, the parent class and the field name of each, later ones winning. */
module RelationPlans {
  import opened Options
  import opened RelationText
  import opened Serializers

  predicate Between(r: Relation, source: string, target: string) {
    r.source == source && r.target == target
  }

  /** Relation i is the last one from this class to that. */
  predicate LastBetween(relations: seq<Relation>, i: nat) {
    && i < |relations|
    && forall j :: i < j < |relations| ==> !Between(relations[j], relations[i].source, relations[i].target)
  }

  predicate LastInto(relations: seq<Relation>, i: nat) {
    i < |relations| && forall j :: i < j < |relations| ==> relations[j].target != relations[i].target
  }

  /** Relation i has a name, and no later one between its classes has one. */
  predicate LastNamed(relations: seq<Relation>, i: nat) {
    && i < |relations| && relations[i].custom != ""
    && forall j :: i < j < |relations| && Between(relations[j], relations[i].source, relations[i].target) ==>
         relations[j].custom == ""
  }

  lemma {:induction false} SetTargetKeeps(targets: seq<(string, Kind)>, target: string, kind: Kind)
    ensures (target, kind) in SetTarget(targets, target, kind)
    ensures forall p :: p in targets && p.0 != target ==> p in SetTarget(targets, target, kind)
  {
    if targets != [] && targets[0].0 != target {
      SetTargetKeeps(targets[1..], target, kind);
    }
  }

  /** A relation that is declared again keeps its place, and a new one comes last. */
  lemma {:induction false} PlacesStay(targets: seq<(string, Kind)>, target: string, kind: Kind)
    ensures var after := SetTarget(targets, target, kind);
      && |targets| <= |after| <= |targets| + 1
      && (forall k :: 0 <= k < |targets| ==> after[k].0 == targets[k].0)
      && (|after| == |targets| <==> exists k :: 0 <= k < |targets| && targets[k].0 == target)
      && (|after| > |targets| ==> after[|targets|] == (target, kind))
  {
    if targets != [] && targets[0].0 != target {
      var rest := targets[1..];
      PlacesStay(rest, target, kind);
      var after := SetTarget(targets, target, kind);
      assert after[1..] == SetTarget(rest, target, kind);
      forall k | 0 <= k < |targets| ensures after[k].0 == targets[k].0 {
        assert k > 0 ==> after[k] == after[1..][k - 1] && targets[k] == rest[k - 1];
      }
      assert forall k :: 0 <= k < |rest| ==> targets[k + 1] == rest[k];
      if k :| 0 <= k < |targets| && targets[k].0 == target {
        assert rest[k - 1].0 == target;
      }
      if |after| > |targets| {
        assert after[|targets|] == after[1..][|rest|];
      }
    }
  }

  /** The kind of a relation is that of the last one between its classes. */
  lemma {:induction false} PlanKinds(relations: seq<Relation>, i: nat)
    requires LastBetween(relations, i)
    ensures (relations[i].target, relations[i].kind) in Targets(PlanOf(relations).graph, relations[i].source)
  {
    var n := |relations| - 1;
    var front, last, r := relations[..n], relations[n], relations[i];
    SetTargetKeeps(Targets(PlanOf(front).graph, last.source), last.target, last.kind);
    if i < n {
      assert front[i] == r && forall j :: i < j < n ==> front[j] == relations[j];
      PlanKinds(front, i);
      assert !Between(last, r.source, r.target);
    }
  }

  /** The parent of a class is the source of the last relation into it. */
  lemma {:induction false} PlanParents(relations: seq<Relation>, i: nat)
    requires LastInto(relations, i)
    ensures var r := relations[i];
      r.target in PlanOf(relations).reverse && PlanOf(relations).reverse[r.target] == r.source
  {
    var n := |relations| - 1;
    if i < n {
      var front := relations[..n];
      assert front[i] == relations[i] && forall j :: i < j < n ==> front[j] == relations[j];
      PlanParents(front, i);
    }
  }

  lemma {:induction false} PlanNames(relations: seq<Relation>, i: nat)
    requires LastNamed(relations, i)
    ensures var (r, names) := (relations[i], PlanOf(relations).names);
      (r.source, r.target) in names && names[(r.source, r.target)] == r.custom
  {
    var n := |relations| - 1;
    if i < n {
      var front := relations[..n];
      assert front[i] == relations[i] && forall j :: i < j < n ==> front[j] == relations[j];
      PlanNames(front, i);
    }
  }

  lemma {:induction false} PlanUnnamed(relations: seq<Relation>, source: string, target: string)
    requires forall i :: 0 <= i < |relations| && Between(relations[i], source, target) ==> relations[i].custom == ""
    ensures (source, target) !in PlanOf(relations).names
  {
    if relations != [] {
      PlanUnnamed(relations[..|relations| - 1], source, target);
    }
  }

  /** A field is called by the last name given between the classes. */
  lemma NamedKey(relations: seq<Relation>, i: nat, kind: Kind)
    requires LastNamed(relations, i)
    ensures RelationKey(PlanOf(relations), relations[i].source, relations[i].target, kind) == relations[i].custom
  {
    PlanNames(relations, i);
  }

  /** Without a name it is called like the target class, with an s if it is a list. */
  lemma UnnamedKey(relations: seq<Relation>, source: string, target: string)
    requires forall i :: 0 <= i < |relations| && Between(relations[i], source, target) ==> relations[i].custom == ""
    ensures RelationKey(PlanOf(relations), source, target, O2M) == target + "s"
    ensures RelationKey(PlanOf(relations), source, target, M2M) == target + "s"
    ensures RelationKey(PlanOf(relations), source, target, O2O) == target
    ensures RelationKey(PlanOf(relations), source, target, M2O) == target
  {
    PlanUnnamed(relations, source, target);
  }
}

/**
 One rolling-update pass over the old replica sets of a NetworkFunctionDeployment: first the
 unavailable replicas are cleaned up, then as many replicas as the deployment can spare are
 scaled down. Writes go through the API server, which refuses a write against an old version and
 may fail for other reasons.
 */
module RollingUpdate {
  import opened Basics

  // ---------------------------------------------------------------------------------------
  // Replica sets and the API server
  // ---------------------------------------------------------------------------------------

  /** A replica set as read by the controller. Names are compared by their order, so numbers stand for them. */
  datatype ReplicaSet = ReplicaSet(name: nat, created: nat, version: nat, spec: int, avail: int)

  datatype Stored = Stored(version: nat, spec: int)

  /** What the server stores, and how many writes it has seen. */
  datatype Server = Server(sets: map<nat, Stored>, writes: nat)

  /** What happens to a write, besides the check of its version: it can be refused, or take effect and be reported as failed. */
  datatype Fault = NoFault | Refused | Lost

  /** scaleReplicaSet: the write, and whether it went well. `fault(k)` is what happens to write number k. */
  function Scale(fault: nat -> Fault, s: Server, rs: ReplicaSet, newScale: int): (Server, bool) {
    if rs.spec == newScale then (s, true)
    else if fault(s.writes) != Refused && rs.name in s.sets && s.sets[rs.name].version == rs.version
    then (Server(s.sets[rs.name := Stored(rs.version + 1, newScale)], s.writes + 1), fault(s.writes) == NoFault)
    else (s.(writes := s.writes + 1), false)
  }

  // ---------------------------------------------------------------------------------------
  // Sums and the order of creation
  // ---------------------------------------------------------------------------------------

  function Sum(sets: seq<ReplicaSet>, f: ReplicaSet -> int): int {
    if sets == [] then 0 else f(sets[0]) + Sum(sets[1..], f)
  }

  function SpecOf(rs: ReplicaSet): int { rs.spec }

  function AvailOf(rs: ReplicaSet): int { rs.avail }

  function UnavailOf(rs: ReplicaSet): int { rs.spec - rs.avail }

  predicate Older(a: ReplicaSet, b: ReplicaSet) {
    if a.created == b.created then a.name < b.name else a.created < b.created
  }

  function Insert(rs: ReplicaSet, sets: seq<ReplicaSet>): seq<ReplicaSet> {
    if sets == [] || !Older(sets[0], rs) then [rs] + sets else [sets[0]] + Insert(rs, sets[1..])
  }

  /** The sets in the order of their creation. */
  function ByCreation(sets: seq<ReplicaSet>): seq<ReplicaSet> {
    if sets == [] then [] else Insert(sets[0], ByCreation(sets[1..]))
  }

  ghost function Names(sets: seq<ReplicaSet>): set<nat> {
    if sets == [] then {} else {sets[0].name} + Names(sets[1..])
  }

  ghost predicate Distinct(sets: seq<ReplicaSet>) {
    sets == [] || (sets[0].name !in Names(sets[1..]) && Distinct(sets[1..]))
  }

  /** `P` holds of every set. */
  ghost predicate All(sets: seq<ReplicaSet>, P: ReplicaSet -> bool) {
    sets == [] || (P(sets[0]) && All(sets[1..], P))
  }

  ghost predicate Ordered(sets: seq<ReplicaSet>) {
    |sets| <= 1 || (!Older(sets[1], sets[0]) && Ordered(sets[1..]))
  }

  lemma {:induction false} InsertKeeps(rs: ReplicaSet, sets: seq<ReplicaSet>, f: ReplicaSet -> int, P: ReplicaSet -> bool)
    ensures Sum(Insert(rs, sets), f) == f(rs) + Sum(sets, f)
    ensures Names(Insert(rs, sets)) == {rs.name} + Names(sets)
    ensures Distinct(Insert(rs, sets)) <==> (rs.name !in Names(sets) && Distinct(sets))
    ensures All(Insert(rs, sets), P) <==> P(rs) && All(sets, P)
    ensures Ordered(sets) ==> Ordered(Insert(rs, sets))
    ensures Insert(rs, sets) != [] && Insert(rs, sets)[0] in [rs] + sets[..Min(1, |sets|)]
  {
    if sets == [] || !Older(sets[0], rs) {
      assert ([rs] + sets)[1..] == sets;
    } else {
      InsertKeeps(rs, sets[1..], f, P);
      assert Insert(rs, sets)[1..] == Insert(rs, sets[1..]);
    }
  }

  /** Sorting keeps sums, names and what holds of every set. */
  lemma {:induction false} SortKeeps(sets: seq<ReplicaSet>, f: ReplicaSet -> int, P: ReplicaSet -> bool)
    ensures Ordered(ByCreation(sets)) && Sum(ByCreation(sets), f) == Sum(sets, f)
    ensures Names(ByCreation(sets)) == Names(sets) && (Distinct(sets) <==> Distinct(ByCreation(sets)))
    ensures All(ByCreation(sets), P) <==> All(sets, P)
  {
    if sets != [] {
      SortKeeps(sets[1..], f, P);
      InsertKeeps(sets[0], ByCreation(sets[1..]), f, P);
    }
  }

  ghost predicate NotAfter(a: ReplicaSet, b: ReplicaSet) {
    a.created < b.created || (a.created == b.created && a.name <= b.name)
  }

  /** Ascending by creation, then by name. */
  ghost predicate Ascending(sets: seq<ReplicaSet>) {
    forall i, j :: 0 <= i < j < |sets| ==> NotAfter(sets[i], sets[j])
  }

  lemma {:induction false} InsertMembers(rs: ReplicaSet, sets: seq<ReplicaSet>, x: ReplicaSet)
    ensures x in Insert(rs, sets) <==> x == rs || x in sets
  {
    if sets != [] && Older(sets[0], rs) {
      InsertMembers(rs, sets[1..], x);
    }
  }

  lemma {:induction false} InsertPermutes(rs: ReplicaSet, sets: seq<ReplicaSet>)
    ensures multiset(Insert(rs, sets)) == multiset{rs} + multiset(sets)
  {
    if sets != [] && Older(sets[0], rs) {
      InsertPermutes(rs, sets[1..]);
      assert sets == [sets[0]] + sets[1..];
    }
  }

  lemma AscendingCons(rs: ReplicaSet, sets: seq<ReplicaSet>)
    requires Ascending(sets) && forall k :: 0 <= k < |sets| ==> NotAfter(rs, sets[k])
    ensures Ascending([rs] + sets)
  {
    forall i, j | 0 <= i < j < |sets| + 1
      ensures NotAfter(([rs] + sets)[i], ([rs] + sets)[j])
    {
      assert ([rs] + sets)[j] == sets[j - 1];
    }
  }

  lemma HeadFirst(rs: ReplicaSet, sets: seq<ReplicaSet>)
    requires Ascending(sets) && sets != [] && NotAfter(rs, sets[0])
    ensures forall k :: 0 <= k < |sets| ==> NotAfter(rs, sets[k])
  {
    forall k | 0 <= k < |sets| ensures NotAfter(rs, sets[k]) {
      assert k > 0 ==> NotAfter(sets[0], sets[k]);
    }
  }

  lemma {:induction false} InsertAscending(rs: ReplicaSet, sets: seq<ReplicaSet>)
    requires Ascending(sets)
    ensures Ascending(Insert(rs, sets))
  {
    if sets == [] {
    } else if !Older(sets[0], rs) {
      HeadFirst(rs, sets);
      AscendingCons(rs, sets);
    } else {
      var rest := Insert(rs, sets[1..]);
      InsertAscending(rs, sets[1..]);
      HeadFirst(sets[0], sets);
      forall k | 0 <= k < |rest| ensures NotAfter(sets[0], rest[k]) {
        InsertMembers(rs, sets[1..], rest[k]);
        if rest[k] != rs {
          assert rest[k] in sets;
        }
      }
      AscendingCons(sets[0], rest);
    }
  }

  /** The sorted list holds the same sets, the oldest first, ties broken by name. */
  lemma {:induction false} SortedByCreation(sets: seq<ReplicaSet>)
    ensures multiset(ByCreation(sets)) == multiset(sets)
    ensures forall i, j :: 0 <= i < j < |ByCreation(sets)| ==>
              || ByCreation(sets)[i].created < ByCreation(sets)[j].created
              || (ByCreation(sets)[i].created == ByCreation(sets)[j].created && ByCreation(sets)[i].name <= ByCreation(sets)[j].name)
  {
    if sets != [] {
      SortedByCreation(sets[1..]);
      InsertAscending(sets[0], ByCreation(sets[1..]));
      InsertPermutes(sets[0], ByCreation(sets[1..]));
      assert sets == [sets[0]] + sets[1..];
      assert Ascending(ByCreation(sets));
    }
  }

  lemma {:induction false} SumAppend(a: seq<ReplicaSet>, b: seq<ReplicaSet>, f: ReplicaSet -> int)
    ensures Sum(a + b, f) == Sum(a, f) + Sum(b, f)
  {
    if a == [] {
      assert a + b == b;
    } else {
      assert (a + b)[1..] == a[1..] + b;
      SumAppend(a[1..], b, f);
    }
  }

  // ---------------------------------------------------------------------------------------
  // The two loops
  // ---------------------------------------------------------------------------------------

  /** What a loop did: the server, the count it reports, and whether it ended without an error. */
  datatype Outcome = Outcome(server: Server, count: int, ok: bool)

  /** scaleReplicaSet inside a loop: removes `count` replicas of `rs` and adds them to `total`. */
  function Remove(fault: nat -> Fault, s: Server, rs: ReplicaSet, count: int, total: int): Outcome {
    if rs.spec - count > rs.spec then Outcome(s, 0, false)
    else
      var (s', ok) := Scale(fault, s, rs, rs.spec - count);
      Outcome(s', if ok then total + count else total, ok)
  }

  function CleanupOne(fault: nat -> Fault, s: Server, rs: ReplicaSet, max: int, total: int): Outcome {
    if rs.spec == 0 || rs.spec == rs.avail then Outcome(s, total, true)
    else Remove(fault, s, rs, Min(max - total, rs.spec - rs.avail), total)
  }

  /** The loop of cleanupUnhealthyReplicas, `total` replicas having been removed before. */
  function Cleanup(fault: nat -> Fault, s: Server, sets: seq<ReplicaSet>, max: int, total: int): Outcome
    decreases |sets|
  {
    if sets == [] || total >= max then Outcome(s, total, true)
    else
      var o := CleanupOne(fault, s, sets[0], max, total);
      if o.ok then Cleanup(fault, o.server, sets[1..], max, o.count) else o
  }

  function ScaleDownOne(fault: nat -> Fault, s: Server, rs: ReplicaSet, max: int, total: int): Outcome {
    if rs.spec == 0 then Outcome(s, total, true)
    else Remove(fault, s, rs, Min(rs.spec, max - total), total)
  }

  /** The loop of scaleDownOldReplicaSetsForRollingUpdate. */
  function ScaleDown(fault: nat -> Fault, s: Server, sets: seq<ReplicaSet>, max: int, total: int): Outcome
    decreases |sets|
  {
    if sets == [] || total >= max then Outcome(s, total, true)
    else
      var o := ScaleDownOne(fault, s, sets[0], max, total);
      if o.ok then ScaleDown(fault, o.server, sets[1..], max, o.count) else o
  }

  // ---------------------------------------------------------------------------------------
  // The deployment and the whole pass
  // ---------------------------------------------------------------------------------------

  datatype IntOrPercent = Int(n: int) | Percent(p: int) | Malformed

  /** A number of replicas, percentages being rounded up or down; `Malformed` is refused. */
  function Scaled(v: IntOrPercent, desired: int, up: bool): (r: int)
    ensures v.Int? ==> r == v.n
    ensures v.Percent? && up ==> 100 * (r - 1) < v.p * desired <= 100 * r
    ensures v.Percent? && !up ==> 100 * r <= v.p * desired < 100 * (r + 1)
  {
    match v
    case Int(n) => n
    case Percent(p) => if up then (p * desired + 99) / 100 else p * desired / 100
    case Malformed => 0
  }

  datatype Deployment = Deployment(replicas: int, rolling: bool, maxSurge: IntOrPercent, maxUnavailable: IntOrPercent)

  /** The surge and the number of unavailable replicas, in this order. */
  function ResolveFenceposts(maxSurge: IntOrPercent, maxUnavailable: IntOrPercent, desired: int): (r: (int, int))
    ensures !maxSurge.Malformed? && !maxUnavailable.Malformed? ==>
              && r.0 == Scaled(maxSurge, desired, true) && (r.0 != 0 || r.1 != 0)
              && (r.1 == Scaled(maxUnavailable, desired, false) || (r == (0, 1) && Scaled(maxUnavailable, desired, false) == 0))
  {
    if maxSurge.Malformed? || maxUnavailable.Malformed? then (0, 0)
    else
      var surge, unavailable := Scaled(maxSurge, desired, true), Scaled(maxUnavailable, desired, false);
      if surge == 0 && unavailable == 0 then (0, 1) else (surge, unavailable)
  }

  /** The allowance the pass works with; it is the first of the two numbers. */
  function MaxUnavailable(d: Deployment): int {
    if !d.rolling || d.replicas == 0 then 0
    else ResolveFenceposts(d.maxSurge, d.maxUnavailable, d.replicas).0
  }

  /** The allowance that the API documents. */
  function DocumentedMaxUnavailable(d: Deployment): int {
    if !d.rolling || d.replicas == 0 then 0
    else ResolveFenceposts(d.maxSurge, d.maxUnavailable, d.replicas).1
  }

  function ScaleDownOld(fault: nat -> Fault, s: Server, all: seq<ReplicaSet>, olds: seq<ReplicaSet>, d: Deployment): Outcome {
    var minAvailable := d.replicas - MaxUnavailable(d);
    var available := Sum(all, AvailOf);
    if available <= minAvailable then Outcome(s, 0, true)
    else ScaleDown(fault, s, ByCreation(olds), available - minAvailable, 0)
  }

  /** How many replicas the pass may remove at most. */
  function MaxScaledDown(olds: seq<ReplicaSet>, current: ReplicaSet, d: Deployment): int {
    Sum(olds + [current], SpecOf) - (d.replicas - MaxUnavailable(d)) - (current.spec - current.avail)
  }

  /** reconcileOldReplicaSets: the server afterwards, and whether it reports a change. */
  function Pass(fault: nat -> Fault, s: Server, olds: seq<ReplicaSet>, current: ReplicaSet, d: Deployment): (Server, bool) {
    if Sum(olds, SpecOf) == 0 || MaxScaledDown(olds, current, d) <= 0 then (s, false)
    else
      var cleanup := Cleanup(fault, s, ByCreation(olds), MaxScaledDown(olds, current, d), 0);
      if !cleanup.ok then (cleanup.server, false)
      else
        var down := ScaleDownOld(fault, cleanup.server, ByCreation(olds) + [current], ByCreation(olds), d);
        if !down.ok then (down.server, false) else (down.server, cleanup.count + down.count > 0)
  }

  class ApiServer {
    const fault: nat -> Fault
    var sets: map<nat, Stored>
    var writes: nat

    constructor (fault: nat -> Fault, sets: map<nat, Stored>)
      ensures this.fault == fault && State() == Server(sets, 0)
    {
      this.fault, this.sets, writes := fault, sets, 0;
    }

    ghost function State(): Server
      reads this
    {
      Server(sets, writes)
    }

    method Update(rs: ReplicaSet) returns (ok: bool)
      modifies this
      ensures var applied := fault(old(writes)) != Refused && rs.name in old(sets) && old(sets)[rs.name].version == rs.version;
              && ok == (applied && fault(old(writes)) == NoFault) && writes == old(writes) + 1
              && sets == if applied then old(sets)[rs.name := Stored(rs.version + 1, rs.spec)] else old(sets)
    {
      var applied := fault(writes) != Refused && rs.name in sets && sets[rs.name].version == rs.version;
      ok := applied && fault(writes) == NoFault;
      writes := writes + 1;
      if applied {
        sets := sets[rs.name := Stored(rs.version + 1, rs.spec)];
      }
    }
  }

  /** The replica set handed back is the one passed in, not the copy that was written. */
  method ScaleReplicaSet(server: ApiServer, rs: ReplicaSet, newScale: int)
    returns (scaled: bool, updated: ReplicaSet, ok: bool)
    modifies server
    ensures (server.State(), ok) == Scale(server.fault, old(server.State()), rs, newScale)
    ensures !scaled && updated == rs
  {
    scaled, updated := false, rs;
    if rs.spec == newScale {
      return scaled, updated, true;
    }
    var copy := rs.(spec := newScale);
    ok := server.Update(copy);
  }

  method CleanupUnhealthyReplicas(server: ApiServer, olds: seq<ReplicaSet>, maxCleanup: int)
    returns (remaining: seq<ReplicaSet>, count: int, ok: bool)
    modifies server
    ensures Outcome(server.State(), count, ok) == Cleanup(server.fault, old(server.State()), ByCreation(olds), maxCleanup, 0)
    ensures ok ==> remaining == ByCreation(olds)
  {
    var oldRSs := ByCreation(olds);
    ghost var sorted, goal := oldRSs, Cleanup(server.fault, server.State(), oldRSs, maxCleanup, 0);
    var total := 0;
    var i := 0;
    while i < |oldRSs|
      invariant 0 <= i <= |oldRSs| && oldRSs == sorted
      invariant goal == Cleanup(server.fault, server.State(), sorted[i..], maxCleanup, total)
    {
      var rs := oldRSs[i];
      if total >= maxCleanup {
        break;
      }
      assert sorted[i..][0] == rs && sorted[i..][1..] == sorted[i + 1..];
      i := i + 1;
      if rs.spec == 0 || rs.spec == rs.avail {
        continue;
      }
      var scaledDown := Min(maxCleanup - total, rs.spec - rs.avail);
      var newReplicas := rs.spec - scaledDown;
      if newReplicas > rs.spec {
        return [], 0, false;
      }
      var _, updated, written := ScaleReplicaSet(server, rs, newReplicas);
      if !written {
        return [], total, false;
      }
      total := total + scaledDown;
      assert oldRSs[i - 1 := rs] == oldRSs;
      oldRSs := oldRSs[i - 1 := updated];
    }
    return oldRSs, total, true;
  }

  method ScaleDownOldReplicaSets(server: ApiServer, all: seq<ReplicaSet>, olds: seq<ReplicaSet>, d: Deployment)
    returns (count: int, ok: bool)
    modifies server
    ensures Outcome(server.State(), count, ok) == ScaleDownOld(server.fault, old(server.State()), all, olds, d)
  {
    var minAvailable := d.replicas - MaxUnavailable(d);
    var available := Sum(all, AvailOf);
    if available <= minAvailable {
      return 0, true;
    }
    var sorted := ByCreation(olds);
    var total, max := 0, available - minAvailable;
    ghost var goal := ScaleDown(server.fault, server.State(), sorted, max, 0);
    var i := 0;
    while i < |sorted|
      invariant 0 <= i <= |sorted|
      invariant goal == ScaleDown(server.fault, server.State(), sorted[i..], max, total)
    {
      var rs := sorted[i];
      if total >= max {
        break;
      }
      assert sorted[i..][0] == rs && sorted[i..][1..] == sorted[i + 1..];
      i := i + 1;
      if rs.spec == 0 {
        continue;
      }
      var scaledDown := Min(rs.spec, max - total);
      var newReplicas := rs.spec - scaledDown;
      if newReplicas > rs.spec {
        return 0, false;
      }
      var _, _, written := ScaleReplicaSet(server, rs, newReplicas);
      if !written {
        return total, false;
      }
      total := total + scaledDown;
    }
    return total, true;
  }

  method ReconcileOldReplicaSets(server: ApiServer, olds: seq<ReplicaSet>, current: ReplicaSet, d: Deployment)
    returns (scaledDown: bool)
    modifies server
    ensures (server.State(), scaledDown) == Pass(server.fault, old(server.State()), olds, current, d)
  {
    if Sum(olds, SpecOf) == 0 {
      return false;
    }
    var minAvailable := d.replicas - MaxUnavailable(d);
    var newUnavailable := current.spec - current.avail;
    var maxScaledDown := Sum(olds + [current], SpecOf) - minAvailable - newUnavailable;
    if maxScaledDown <= 0 {
      return false;
    }
    var oldRSs, cleaned, ok := CleanupUnhealthyReplicas(server, olds, maxScaledDown);
    if !ok {
      return false;
    }
    var all := oldRSs + [current];
    var down, ok' := ScaleDownOldReplicaSets(server, all, oldRSs, d);
    if !ok' {
      return false;
    }
    return cleaned + down > 0;
  }

  // ---------------------------------------------------------------------------------------
  // What the loops do to the stored sets
  // ---------------------------------------------------------------------------------------

  /** The observed status is consistent. */
  predicate Sane(rs: ReplicaSet) { 0 <= rs.avail <= rs.spec }

  /** The controller read the stored state. */
  predicate Fresh(sets: map<nat, Stored>, rs: ReplicaSet) {
    rs.name in sets && sets[rs.name] == Stored(rs.version, rs.spec)
  }

  /** Stored with at least as many replicas as are available, and no more than were read. */
  predicate Kept(sets: map<nat, Stored>, rs: ReplicaSet) {
    rs.name in sets && rs.avail <= sets[rs.name].spec <= rs.spec
  }

  function FreshIn(sets: map<nat, Stored>): ReplicaSet -> bool { (rs: ReplicaSet) => Fresh(sets, rs) }

  function KeptIn(sets: map<nat, Stored>): ReplicaSet -> bool { (rs: ReplicaSet) => Kept(sets, rs) }

  /** Available replicas that remain, the unavailable ones being shed first. */
  function LeftIn(sets: map<nat, Stored>): ReplicaSet -> int {
    (rs: ReplicaSet) => if rs.name in sets then Min(rs.avail, sets[rs.name].spec) else 0
  }

  /** Replicas removed by writes. */
  function RemovedIn(sets: map<nat, Stored>): ReplicaSet -> int {
    (rs: ReplicaSet) => if rs.name in sets then rs.spec - sets[rs.name].spec else rs.spec
  }

  ghost predicate Agree(names: set<nat>, a: map<nat, Stored>, b: map<nat, Stored>) {
    forall n :: n in names ==> (n in a <==> n in b) && (n in a ==> a[n] == b[n])
  }

  /** What is said of replica sets depends only on how they are stored themselves. */
  lemma {:induction false} Frame(sets: seq<ReplicaSet>, a: map<nat, Stored>, b: map<nat, Stored>)
    requires Agree(Names(sets), a, b)
    ensures All(sets, FreshIn(a)) <==> All(sets, FreshIn(b))
    ensures All(sets, KeptIn(a)) <==> All(sets, KeptIn(b))
    ensures Sum(sets, LeftIn(a)) == Sum(sets, LeftIn(b))
    ensures Sum(sets, RemovedIn(a)) == Sum(sets, RemovedIn(b))
  {
    if sets != [] { Frame(sets[1..], a, b); }
  }

  lemma {:induction false} SumBounds(sets: seq<ReplicaSet>, stored: map<nat, Stored>)
    requires All(sets, Sane)
    ensures 0 <= Sum(sets, AvailOf) <= Sum(sets, SpecOf) && Sum(sets, UnavailOf) == Sum(sets, SpecOf) - Sum(sets, AvailOf)
    ensures All(sets, KeptIn(stored)) ==> Sum(sets, LeftIn(stored)) == Sum(sets, AvailOf)
    ensures All(sets, FreshIn(stored)) ==> Sum(sets, RemovedIn(stored)) == 0 && All(sets, KeptIn(stored))
  {
    if sets != [] { SumBounds(sets[1..], stored); }
  }

  /** One iteration of the cleanup. */
  lemma CleanupOneEffect(fault: nat -> Fault, s: Server, rs: ReplicaSet, max: int, total: int)
    requires Sane(rs) && Fresh(s.sets, rs) && total < max
    ensures var o := CleanupOne(fault, s, rs, max, total);
            && o.server.sets.Keys == s.sets.Keys && (forall n :: n in s.sets && n != rs.name ==> o.server.sets[n] == s.sets[n])
            && Kept(o.server.sets, rs) && 0 <= RemovedIn(o.server.sets)(rs) <= max - total
            && (o.ok ==> RemovedIn(o.server.sets)(rs) == o.count - total == Min(max - total, rs.spec - rs.avail))
            && (!o.ok ==> o.count == total)
            && (fault(s.writes) == NoFault ==> o.ok)
  {
  }

  /**
   The cleanup, whatever happens to its writes: every target is between the available and the
   desired replicas, and no more replicas are removed than the limit allows, nor fewer than are
   reported. Without an error those reported are removed, and as many as are unavailable, up to
   the limit.
   */
  lemma {:induction false} CleanupEffect(fault: nat -> Fault, s: Server, sets: seq<ReplicaSet>, max: int, total: int)
    requires All(sets, Sane) && Distinct(sets) && All(sets, FreshIn(s.sets)) && total <= max
    ensures var o := Cleanup(fault, s, sets, max, total);
            && o.server.sets.Keys == s.sets.Keys && (forall n :: n in s.sets && n !in Names(sets) ==> o.server.sets[n] == s.sets[n])
            && All(sets, KeptIn(o.server.sets)) && total <= o.count <= total + Sum(sets, RemovedIn(o.server.sets)) <= max
            && (o.ok ==> Sum(sets, RemovedIn(o.server.sets)) == o.count - total == Min(max - total, Sum(sets, UnavailOf)))
            && ((forall k :: fault(k) == NoFault) ==> o.ok)
    decreases |sets|
  {
    SumBounds(sets, s.sets);
    if sets != [] && total < max {
      var rs, rest := sets[0], sets[1..];
      var o := CleanupOne(fault, s, rs, max, total);
      CleanupOneEffect(fault, s, rs, max, total);
      Frame(rest, s.sets, o.server.sets);
      SumBounds(rest, s.sets);
      if o.ok {
        CleanupEffect(fault, o.server, rest, max, o.count);
      } else {
        SumBounds(rest, o.server.sets);
      }
    }
  }

  /** One iteration of the scale-down. */
  lemma ScaleDownOneEffect(fault: nat -> Fault, s: Server, rs: ReplicaSet, max: int, total: int)
    requires Sane(rs) && Kept(s.sets, rs) && total < max
    ensures var o := ScaleDownOne(fault, s, rs, max, total);
            && o.server.sets.Keys == s.sets.Keys && (forall n :: n in s.sets && n != rs.name ==> o.server.sets[n] == s.sets[n])
            && LeftIn(o.server.sets)(rs) >= 0 && LeftIn(o.server.sets)(rs) >= rs.avail - (max - total)
            && (o.ok ==> o.count == total + Min(max - total, rs.spec) && LeftIn(o.server.sets)(rs) >= rs.avail - (o.count - total))
            && (!o.ok ==> o.count == total)
            && (Fresh(s.sets, rs) && fault(s.writes) == NoFault ==> o.ok && RemovedIn(o.server.sets)(rs) == o.count - total)
  {
  }

  /**
   The scale-down, whatever happens to its writes: no more available replicas go than the limit
   allows. Without an error no more go than are reported, and those are as many as there are
   replicas, up to the limit.
   */
  lemma {:induction false} ScaleDownEffect(fault: nat -> Fault, s: Server, sets: seq<ReplicaSet>, max: int, total: int)
    requires All(sets, Sane) && Distinct(sets) && All(sets, KeptIn(s.sets)) && total <= max
    ensures var o := ScaleDown(fault, s, sets, max, total);
            && o.server.sets.Keys == s.sets.Keys && (forall n :: n in s.sets && n !in Names(sets) ==> o.server.sets[n] == s.sets[n])
            && Sum(sets, LeftIn(o.server.sets)) >= 0 && Sum(sets, LeftIn(o.server.sets)) >= Sum(sets, AvailOf) - (max - total)
            && (o.ok ==> o.count == total + Min(max - total, Sum(sets, SpecOf)))
            && (o.ok ==> Sum(sets, LeftIn(o.server.sets)) >= Sum(sets, AvailOf) - (o.count - total))
            && (All(sets, FreshIn(s.sets)) && (forall k :: fault(k) == NoFault) ==>
                  o.ok && Sum(sets, RemovedIn(o.server.sets)) == o.count - total)
    decreases |sets|
  {
    SumBounds(sets, s.sets);
    if sets != [] && total < max {
      var rs, rest := sets[0], sets[1..];
      var o := ScaleDownOne(fault, s, rs, max, total);
      ScaleDownOneEffect(fault, s, rs, max, total);
      Frame(rest, s.sets, o.server.sets);
      SumBounds(rest, s.sets);
      if o.ok {
        ScaleDownEffect(fault, o.server, rest, max, o.count);
      }
    }
  }

  // ---------------------------------------------------------------------------------------
  // Main results
  // ---------------------------------------------------------------------------------------

  /** What a pass starts from: consistent statuses of distinct sets, read from the server. */
  ghost predicate Ready(s: Server, olds: seq<ReplicaSet>) {
    All(olds, Sane) && Distinct(olds) && All(olds, FreshIn(s.sets))
  }

  lemma SortReady(s: Server, olds: seq<ReplicaSet>, f: ReplicaSet -> int)
    requires Ready(s, olds)
    ensures Ready(s, ByCreation(olds)) && Sum(ByCreation(olds), f) == Sum(olds, f)
  {
    SortKeeps(olds, f, Sane);
    SortKeeps(olds, f, FreshIn(s.sets));
  }

  /** Without write errors the cleanup removes exactly the unavailable replicas, up to the limit. */
  lemma CleanupExact(fault: nat -> Fault, s: Server, olds: seq<ReplicaSet>, max: int)
    requires Ready(s, olds) && max >= 0 && forall k :: fault(k) == NoFault
    ensures var o := Cleanup(fault, s, ByCreation(olds), max, 0);
            && o.ok && All(olds, KeptIn(o.server.sets))
            && Sum(olds, RemovedIn(o.server.sets)) == o.count == Min(max, Sum(olds, UnavailOf))
  {
    var o := Cleanup(fault, s, ByCreation(olds), max, 0);
    SortReady(s, olds, UnavailOf);
    SortKeeps(olds, RemovedIn(o.server.sets), KeptIn(o.server.sets));
    CleanupEffect(fault, s, ByCreation(olds), max, 0);
  }

  /** How many available replicas more than the minimum there are. */
  function Spare(olds: seq<ReplicaSet>, current: ReplicaSet, d: Deployment): int {
    Sum(olds, AvailOf) + current.avail - (d.replicas - MaxUnavailable(d))
  }

  lemma ScaleDownOldIs(fault: nat -> Fault, s: Server, olds: seq<ReplicaSet>, current: ReplicaSet, d: Deployment)
    ensures ScaleDownOld(fault, s, olds + [current], olds, d)
         == if Spare(olds, current, d) <= 0 then Outcome(s, 0, true) else ScaleDown(fault, s, ByCreation(olds), Spare(olds, current, d), 0)
  {
    SumAppend(olds, [current], AvailOf);
    assert Sum([current], AvailOf) == current.avail + Sum([current][1..], AvailOf);
  }

  // ---------------------------------------------------------------------------------------
  // What a pass without write errors removes
  // ---------------------------------------------------------------------------------------

  /** After a cleanup of at most `max` replicas: the sets it wrote have a new version, the others are as read. */
  ghost predicate Cleaned(stored: map<nat, Stored>, sets: seq<ReplicaSet>, max: int) {
    sets == [] ||
      (&& Kept(stored, sets[0]) && Cleaned(stored, sets[1..], max - UnavailOf(sets[0]))
       && if UnavailOf(sets[0]) > 0 && max > 0 then stored[sets[0].name].version != sets[0].version else Fresh(stored, sets[0]))
  }

  lemma {:induction false} CleanedFrame(sets: seq<ReplicaSet>, a: map<nat, Stored>, b: map<nat, Stored>, max: int)
    requires Agree(Names(sets), a, b) && Cleaned(a, sets, max)
    ensures Cleaned(b, sets, max)
    decreases |sets|
  {
    if sets != [] { CleanedFrame(sets[1..], a, b, max - UnavailOf(sets[0])); }
  }

  /** Once the limit is used up, it does not matter how far. */
  lemma {:induction false} CleanedBeyond(sets: seq<ReplicaSet>, stored: map<nat, Stored>, max: int, max': int)
    requires All(sets, Sane) && max <= 0 && max' <= 0 && Cleaned(stored, sets, max)
    ensures Cleaned(stored, sets, max')
    decreases |sets|
  {
    if sets != [] { CleanedBeyond(sets[1..], stored, max - UnavailOf(sets[0]), max' - UnavailOf(sets[0])); }
  }

  lemma {:induction false} FreshIsCleaned(sets: seq<ReplicaSet>, stored: map<nat, Stored>, max: int)
    requires All(sets, Sane) && All(sets, FreshIn(stored)) && max <= 0
    ensures Cleaned(stored, sets, max)
    decreases |sets|
  {
    if sets != [] { FreshIsCleaned(sets[1..], stored, max - UnavailOf(sets[0])); }
  }

  /** What one iteration of the cleanup leaves of its set, without a write error. */
  lemma CleanupOneMarks(fault: nat -> Fault, s: Server, rs: ReplicaSet, max: int, total: int)
    requires Sane(rs) && Fresh(s.sets, rs) && total < max && fault(s.writes) == NoFault
    ensures var stored := CleanupOne(fault, s, rs, max, total).server.sets;
            Kept(stored, rs) && if UnavailOf(rs) > 0 then stored[rs.name].version != rs.version else Fresh(stored, rs)
  {
  }

  lemma {:induction false} CleanupMarks(fault: nat -> Fault, s: Server, sets: seq<ReplicaSet>, max: int, total: int)
    requires All(sets, Sane) && Distinct(sets) && All(sets, FreshIn(s.sets)) && total <= max && forall k :: fault(k) == NoFault
    ensures Cleaned(Cleanup(fault, s, sets, max, total).server.sets, sets, max - total)
    decreases |sets|
  {
    if sets != [] && total == max {
      FreshIsCleaned(sets, s.sets, max - total);
    } else if sets != [] {
      var rs, rest := sets[0], sets[1..];
      var o := CleanupOne(fault, s, rs, max, total);
      CleanupOneEffect(fault, s, rs, max, total);
      CleanupOneMarks(fault, s, rs, max, total);
      Frame(rest, s.sets, o.server.sets);
      CleanupMarks(fault, o.server, rest, max, o.count);
      var stored := Cleanup(fault, o.server, rest, max, o.count).server.sets;
      CleanupEffect(fault, o.server, rest, max, o.count);
      assert stored[rs.name] == o.server.sets[rs.name];
      if o.count == max { CleanedBeyond(rest, stored, 0, max - total - UnavailOf(rs)); }
    }
  }

  /** The scale-down reaches set number `i` although the cleanup has written it. */
  ghost predicate Clash(sets: seq<ReplicaSet>, max: int, spare: int, i: nat)
    requires i < |sets|
  {
    UnavailOf(sets[i]) > 0 && Sum(sets[..i], UnavailOf) < max && Sum(sets[..i], SpecOf) < spare
  }

  ghost predicate NoClash(sets: seq<ReplicaSet>, max: int, spare: int) {
    forall i :: 0 <= i < |sets| ==> !Clash(sets, max, spare, i)
  }

  ghost predicate FirstClash(sets: seq<ReplicaSet>, max: int, spare: int, c: nat) {
    c < |sets| && Clash(sets, max, spare, c) && forall i :: 0 <= i < c ==> !Clash(sets, max, spare, i)
  }

  lemma SumTake(sets: seq<ReplicaSet>, i: nat, f: ReplicaSet -> int)
    requires i < |sets|
    ensures Sum(sets[..i + 1], f) == f(sets[0]) + Sum(sets[1..][..i], f)
  {
    assert sets[..i + 1][1..] == sets[1..][..i];
  }

  lemma {:induction false} SumTakeNonNegative(sets: seq<ReplicaSet>, i: nat)
    requires All(sets, Sane) && i <= |sets|
    ensures Sum(sets[..i], SpecOf) >= 0 && Sum(sets[..i], UnavailOf) >= 0
  {
    if i > 0 {
      SumTakeNonNegative(sets[1..], i - 1);
      SumTake(sets, i - 1, SpecOf);
      SumTake(sets, i - 1, UnavailOf);
    }
  }

  lemma ClashTail(sets: seq<ReplicaSet>, max: int, spare: int, i: nat)
    requires i + 1 < |sets|
    ensures Clash(sets, max, spare, i + 1) <==> Clash(sets[1..], max - UnavailOf(sets[0]), spare - SpecOf(sets[0]), i)
  {
    SumTake(sets, i, SpecOf);
    SumTake(sets, i, UnavailOf);
  }

  lemma NoSpareNoClash(sets: seq<ReplicaSet>, max: int, spare: int)
    requires All(sets, Sane) && spare <= 0
    ensures NoClash(sets, max, spare)
  {
    forall i | 0 <= i < |sets| ensures !Clash(sets, max, spare, i) { SumTakeNonNegative(sets, i); }
  }

  /** The clashes of a list are that of its head, if any, and those of the rest. */
  lemma NoClashTail(sets: seq<ReplicaSet>, max: int, spare: int)
    requires sets != []
    ensures var rest, max', spare' := sets[1..], max - UnavailOf(sets[0]), spare - SpecOf(sets[0]);
            && (Clash(sets, max, spare, 0) <==> UnavailOf(sets[0]) > 0 && max > 0 && spare > 0)
            && (NoClash(sets, max, spare) <==> !Clash(sets, max, spare, 0) && NoClash(rest, max', spare'))
  {
    var rest, max', spare' := sets[1..], max - UnavailOf(sets[0]), spare - SpecOf(sets[0]);
    assert sets[..0] == [];
    forall i | 0 <= i < |rest| ensures Clash(sets, max, spare, i + 1) <==> Clash(rest, max', spare', i) {
      ClashTail(sets, max, spare, i);
    }
    if NoClash(sets, max, spare) {
      forall i | 0 <= i < |rest| ensures !Clash(rest, max', spare', i) { assert !Clash(sets, max, spare, i + 1); }
    }
    if !Clash(sets, max, spare, 0) && NoClash(rest, max', spare') {
      forall i | 0 <= i < |sets| ensures !Clash(sets, max, spare, i) {
        if i > 0 { assert !Clash(rest, max', spare', i - 1); }
      }
    }
  }

  lemma FirstClashTail(sets: seq<ReplicaSet>, max: int, spare: int, c: nat)
    requires sets != [] && FirstClash(sets, max, spare, c)
    ensures c > 0 ==> FirstClash(sets[1..], max - UnavailOf(sets[0]), spare - SpecOf(sets[0]), c - 1)
    ensures c > 0 ==> Sum(sets[..c], SpecOf) == SpecOf(sets[0]) + Sum(sets[1..][..c - 1], SpecOf)
  {
    if c > 0 {
      var rest, max', spare' := sets[1..], max - UnavailOf(sets[0]), spare - SpecOf(sets[0]);
      SumTake(sets, c - 1, SpecOf);
      ClashTail(sets, max, spare, c - 1);
      forall i | 0 <= i < c - 1 ensures !Clash(rest, max', spare', i) {
        ClashTail(sets, max, spare, i);
        assert !Clash(sets, max, spare, i + 1);
      }
    }
  }

  /** One iteration of the scale-down after a cleanup: it fails exactly on a set that the cleanup has written. */
  lemma ScaleDownOneAfter(fault: nat -> Fault, s: Server, rs: ReplicaSet, max: int, total: int, written: bool)
    requires Sane(rs) && Kept(s.sets, rs) && total < max && fault(s.writes) == NoFault && (written ==> UnavailOf(rs) > 0)
    requires if written then s.sets[rs.name].version != rs.version else Fresh(s.sets, rs)
    ensures var o := ScaleDownOne(fault, s, rs, max, total);
            && o.ok == !written && (written ==> o.server.sets == s.sets && o.count == total)
            && (!written ==> o.count == total + Min(max - total, rs.spec)
                             && RemovedIn(o.server.sets)(rs) == RemovedIn(s.sets)(rs) + o.count - total)
  {
  }

  ghost predicate AfterCleanup(s: Server, sets: seq<ReplicaSet>, max: int) {
    All(sets, Sane) && Distinct(sets) && Cleaned(s.sets, sets, max)
  }

  /** The first iteration of the scale-down on a list, and what it leaves to the others. */
  lemma DownStep(fault: nat -> Fault, s: Server, sets: seq<ReplicaSet>, max: int, spare: int, total: int)
    requires sets != [] && AfterCleanup(s, sets, max) && total < spare && fault(s.writes) == NoFault
    ensures var o, rest, max' := ScaleDownOne(fault, s, sets[0], spare, total), sets[1..], max - UnavailOf(sets[0]);
            && (o.ok <==> !Clash(sets, max, spare - total, 0)) && (!o.ok ==> o.server.sets == s.sets && o.count == total)
            && (o.ok ==> AfterCleanup(o.server, rest, max') && o.count == total + Min(spare - total, sets[0].spec))
  {
    var rs, rest := sets[0], sets[1..];
    NoClashTail(sets, max, spare - total);
    ScaleDownOneAfter(fault, s, rs, spare, total, UnavailOf(rs) > 0 && max > 0);
    ScaleDownOneEffect(fault, s, rs, spare, total);
    CleanedFrame(rest, s.sets, ScaleDownOne(fault, s, rs, spare, total).server.sets, max - UnavailOf(rs));
  }

  /** The scale-down after a cleanup ends without an error exactly if there is no clash. */
  lemma {:induction false} DownSucceedsIff(fault: nat -> Fault, s: Server, sets: seq<ReplicaSet>, max: int, spare: int, total: int)
    requires AfterCleanup(s, sets, max) && total <= spare && forall k :: fault(k) == NoFault
    ensures ScaleDown(fault, s, sets, spare, total).ok <==> NoClash(sets, max, spare - total)
    decreases |sets|
  {
    if sets == [] {
    } else if total == spare {
      NoSpareNoClash(sets, max, 0);
    } else {
      var o, rest, max' := ScaleDownOne(fault, s, sets[0], spare, total), sets[1..], max - UnavailOf(sets[0]);
      DownStep(fault, s, sets, max, spare, total);
      NoClashTail(sets, max, spare - total);
      if o.ok {
        DownSucceedsIff(fault, o.server, rest, max', spare, o.count);
        NextSpare(rest, max', spare - o.count, spare - total - SpecOf(sets[0]));
      }
    }
  }

  /** It removes what it reports. */
  lemma {:induction false} DownRemoves(fault: nat -> Fault, s: Server, sets: seq<ReplicaSet>, max: int, spare: int, total: int)
    requires AfterCleanup(s, sets, max) && total <= spare && forall k :: fault(k) == NoFault
    ensures var o := ScaleDown(fault, s, sets, spare, total);
            && o.server.sets.Keys == s.sets.Keys && (forall n :: n in s.sets && n !in Names(sets) ==> o.server.sets[n] == s.sets[n])
            && Sum(sets, RemovedIn(o.server.sets)) == Sum(sets, RemovedIn(s.sets)) + o.count - total
    decreases |sets|
  {
    if sets != [] && total < spare {
      var rs, rest := sets[0], sets[1..];
      var o := ScaleDownOne(fault, s, rs, spare, total);
      DownStep(fault, s, sets, max, spare, total);
      if o.ok {
        NoClashTail(sets, max, spare - total);
        ScaleDownOneAfter(fault, s, rs, spare, total, false);
        ScaleDownOneEffect(fault, s, rs, spare, total);
        Frame(rest, s.sets, o.server.sets);
        DownRemoves(fault, o.server, rest, max - UnavailOf(rs), spare, o.count);
      }
    }
  }

  /** With a clash it removes all of the sets before the first one. */
  lemma {:induction false} DownToClash(fault: nat -> Fault, s: Server, sets: seq<ReplicaSet>, max: int, spare: int, total: int, c: nat)
    requires AfterCleanup(s, sets, max) && total < spare && forall k :: fault(k) == NoFault
    requires FirstClash(sets, max, spare - total, c)
    ensures ScaleDown(fault, s, sets, spare, total).count == total + Sum(sets[..c], SpecOf)
    decreases |sets|
  {
    var o, rest, max' := ScaleDownOne(fault, s, sets[0], spare, total), sets[1..], max - UnavailOf(sets[0]);
    DownStep(fault, s, sets, max, spare, total);
    if c == 0 {
      assert sets[..0] == [];
    } else {
      FirstClashTail(sets, max, spare - total, c);
      SumTakeNonNegative(rest, c - 1);
      assert o.ok && o.count == total + sets[0].spec < spare;
      DownToClash(fault, o.server, rest, max', spare, o.count, c - 1);
    }
  }

  /** What is left of the spare after a set, with and without going below zero. */
  lemma NextSpare(sets: seq<ReplicaSet>, max: int, spare: int, spare': int)
    requires All(sets, Sane) && (spare == spare' || (spare <= 0 && spare' <= 0))
    ensures NoClash(sets, max, spare) <==> NoClash(sets, max, spare')
  {
    if spare != spare' {
      NoSpareNoClash(sets, max, spare);
      NoSpareNoClash(sets, max, spare');
    }
  }

  lemma {:induction false} SortedStays(sets: seq<ReplicaSet>)
    requires Ordered(sets)
    ensures ByCreation(sets) == sets
  {
    if sets != [] { SortedStays(sets[1..]); }
  }

  /**
   Without write errors, the scale-down that follows a cleanup ends ok exactly if there is no
   clash. Then it removes exactly what the deployment can spare, as far as there is any;
   otherwise all of the sets before the first clash.
   */
  lemma {:induction false} ScaleDownExact(fault: nat -> Fault, s: Server, olds: seq<ReplicaSet>, max: int, current: ReplicaSet, d: Deployment)
    requires Ready(s, olds) && max >= 0 && forall k :: fault(k) == NoFault
    ensures var sorted, spare := ByCreation(olds), Sum(olds, AvailOf) + current.avail - (d.replicas - MaxUnavailable(d));
            var s1 := Cleanup(fault, s, sorted, max, 0).server;
            var o := ScaleDownOld(fault, s1, sorted + [current], sorted, d);
            && (o.ok <==> NoClash(sorted, max, spare))
            && Sum(olds, RemovedIn(o.server.sets)) == Sum(olds, RemovedIn(s1.sets)) + o.count
            && (o.ok ==> o.count == if spare > 0 then Min(spare, Sum(olds, SpecOf)) else 0)
            && (forall c: nat :: FirstClash(sorted, max, spare, c) ==> o.count == Sum(sorted[..c], SpecOf))
  {
    var sorted, spare := ByCreation(olds), Spare(olds, current, d);
    var s1 := Cleanup(fault, s, sorted, max, 0).server;
    SortReady(s, olds, AvailOf);
    SortedOnce(olds);
    ScaleDownOldIs(fault, s1, sorted, current, d);
    assert Spare(sorted, current, d) == spare;
    if spare <= 0 {
      NoSpareNoClash(sorted, max, spare);
    } else {
      CleanupMarks(fault, s, sorted, max, 0);
      DownExact(fault, s1, olds, max, spare);
    }
  }

  lemma SortedOnce(olds: seq<ReplicaSet>)
    ensures ByCreation(ByCreation(olds)) == ByCreation(olds)
  {
    SortKeeps(olds, SpecOf, Sane);
    SortedStays(ByCreation(olds));
  }

  lemma {:induction false} DownExact(fault: nat -> Fault, s: Server, olds: seq<ReplicaSet>, max: int, spare: int)
    requires AfterCleanup(s, ByCreation(olds), max) && spare > 0 && forall k :: fault(k) == NoFault
    ensures var sorted := ByCreation(olds);
            var o := ScaleDown(fault, s, sorted, spare, 0);
            && (o.ok <==> NoClash(sorted, max, spare))
            && Sum(olds, RemovedIn(o.server.sets)) == Sum(olds, RemovedIn(s.sets)) + o.count
            && (o.ok ==> o.count == Min(spare, Sum(olds, SpecOf)))
            && (forall c: nat :: FirstClash(sorted, max, spare, c) ==> o.count == Sum(sorted[..c], SpecOf))
  {
    var sorted := ByCreation(olds);
    var o := ScaleDown(fault, s, sorted, spare, 0);
    DownSucceedsIff(fault, s, sorted, max, spare, 0);
    DownRemoves(fault, s, sorted, max, spare, 0);
    SortKeeps(olds, RemovedIn(o.server.sets), Sane);
    SortKeeps(olds, RemovedIn(s.sets), Sane);
    SortKeeps(olds, SpecOf, Sane);
    CleanedIsKept(sorted, s.sets, max);
    ScaleDownEffect(fault, s, sorted, spare, 0);
    forall c: nat | FirstClash(sorted, max, spare, c) ensures o.count == Sum(sorted[..c], SpecOf) {
      DownToClash(fault, s, sorted, max, spare, 0, c);
    }
  }

  lemma {:induction false} CleanedIsKept(sets: seq<ReplicaSet>, stored: map<nat, Stored>, max: int)
    requires Cleaned(stored, sets, max)
    ensures All(sets, KeptIn(stored))
    decreases |sets|
  {
    if sets != [] { CleanedIsKept(sets[1..], stored, max - UnavailOf(sets[0])); }
  }

  lemma {:induction false} PassWithLimits(
    fault: nat -> Fault, s: Server, olds: seq<ReplicaSet>, current: ReplicaSet, d: Deployment, max: int, spare: int)
    requires Ready(s, olds) && (forall k :: fault(k) == NoFault) && max > 0 && Sum(olds, SpecOf) != 0
    requires max == MaxScaledDown(olds, current, d) && spare == Spare(olds, current, d)
    ensures var sorted := ByCreation(olds);
            var (s', changed) := Pass(fault, s, olds, current, d);
            var removed, cleaned := Sum(olds, RemovedIn(s'.sets)), Min(max, Sum(olds, UnavailOf));
            && (NoClash(sorted, max, spare) ==>
                  removed == cleaned + (if spare > 0 then Min(spare, Sum(olds, SpecOf)) else 0) && (changed <==> removed > 0))
            && (!NoClash(sorted, max, spare) ==> !changed)
            && (forall c: nat :: FirstClash(sorted, max, spare, c) ==> removed == cleaned + Sum(sorted[..c], SpecOf))
  {
    CleanupExact(fault, s, olds, max);
    ScaleDownExact(fault, s, olds, max, current, d);
  }

  /**
   What one pass without write errors removes in all, and what it reports. A set that the cleanup
   has written is refused by the scale-down, because it is written against the version that was
   read: from the first such set on nothing more is removed, and the pass reports no change.
   */
  lemma {:induction false} PassRemoves(fault: nat -> Fault, s: Server, olds: seq<ReplicaSet>, current: ReplicaSet, d: Deployment)
    requires Ready(s, olds) && forall k :: fault(k) == NoFault
    ensures var minimum := d.replicas - MaxUnavailable(d);
            var sorted, max, spare := ByCreation(olds), Sum(olds, SpecOf) + current.avail - minimum, Sum(olds, AvailOf) + current.avail - minimum;
            var (s', changed) := Pass(fault, s, olds, current, d);
            var removed, cleaned := Sum(olds, RemovedIn(s'.sets)), Min(max, Sum(olds, UnavailOf));
            if max <= 0 then s' == s && !changed
            else
              && (NoClash(sorted, max, spare) ==>
                    removed == cleaned + (if spare > 0 then Min(spare, Sum(olds, SpecOf)) else 0) && (changed <==> removed > 0))
              && (!NoClash(sorted, max, spare) ==> !changed)
              && (forall c: nat :: FirstClash(sorted, max, spare, c) ==> removed == cleaned + Sum(sorted[..c], SpecOf))
  {
    var max, spare := MaxScaledDown(olds, current, d), Spare(olds, current, d);
    MaxScaledDownIs(olds, current, d);
    if max > 0 {
      if Sum(olds, SpecOf) == 0 {
        NothingToRemove(olds, s, max, spare);
      } else {
        PassWithLimits(fault, s, olds, current, d, max, spare);
      }
    }
  }

  /** The limit in numbers: everything above the minimum, unavailable replicas of the current set not counting. */
  lemma MaxScaledDownIs(olds: seq<ReplicaSet>, current: ReplicaSet, d: Deployment)
    ensures MaxScaledDown(olds, current, d) == Sum(olds, SpecOf) + current.avail - (d.replicas - MaxUnavailable(d))
  {
    SumAppend(olds, [current], SpecOf);
    assert Sum([current], SpecOf) == current.spec + Sum([current][1..], SpecOf);
  }

  lemma NothingToRemove(olds: seq<ReplicaSet>, s: Server, max: int, spare: int)
    requires Ready(s, olds) && Sum(olds, SpecOf) == 0
    ensures NoClash(ByCreation(olds), max, spare) && Sum(olds, UnavailOf) == 0 && Sum(olds, RemovedIn(s.sets)) == 0
    ensures forall c: nat :: !FirstClash(ByCreation(olds), max, spare, c)
  {
    SumBounds(olds, s.sets);
    SortReady(s, olds, SpecOf);
    AllEmpty(ByCreation(olds), max, spare);
  }

  lemma {:induction false} AllEmpty(sets: seq<ReplicaSet>, max: int, spare: int)
    requires All(sets, Sane) && Sum(sets, SpecOf) == 0
    ensures NoClash(sets, max, spare)
    decreases |sets|
  {
    if sets != [] {
      SumTakeNonNegative(sets[1..], |sets| - 1);
      assert sets[1..][..|sets| - 1] == sets[1..];
      NoClashTail(sets, max, spare);
      AllEmpty(sets[1..], max - UnavailOf(sets[0]), spare - SpecOf(sets[0]));
    }
  }

  /** In a pass, a clash is a set with unavailable replicas that comes before the spare is used up. */
  lemma ClashInPass(s: Server, olds: seq<ReplicaSet>, current: ReplicaSet, d: Deployment, i: nat)
    requires Ready(s, olds) && i < |ByCreation(olds)|
    ensures var sorted, spare := ByCreation(olds), Spare(olds, current, d);
            Clash(sorted, MaxScaledDown(olds, current, d), spare, i) <==> UnavailOf(sorted[i]) > 0 && Sum(sorted[..i], SpecOf) < spare
  {
    var sorted := ByCreation(olds);
    SortReady(s, olds, UnavailOf);
    SumBounds(olds, s.sets);
    SumAppend(olds, [current], SpecOf);
    assert Sum([current], SpecOf) == current.spec + Sum([current][1..], SpecOf);
    SumTakeNonNegative(sorted, i);
    RestNonNegative(sorted, i);
  }

  lemma {:induction false} RestNonNegative(sets: seq<ReplicaSet>, i: nat)
    requires All(sets, Sane) && i <= |sets|
    ensures Sum(sets[..i], UnavailOf) <= Sum(sets, UnavailOf)
  {
    if i == 0 {
      assert sets[..0] == [] && sets[..|sets|] == sets;
      SumTakeNonNegative(sets, |sets|);
    } else {
      SumTake(sets, i - 1, UnavailOf);
      RestNonNegative(sets[1..], i - 1);
    }
  }

  // ---------------------------------------------------------------------------------------
  // The oldest sets go first
  // ---------------------------------------------------------------------------------------

  /** A set whose name is in a list is stored as it was by a scale-down of another list. */
  lemma {:induction false} NamesHold(sets: seq<ReplicaSet>, i: nat)
    requires i < |sets|
    ensures sets[i].name in Names(sets)
  {
    if i > 0 { NamesHold(sets[1..], i - 1); }
  }

  lemma {:induction false} CleanedAt(stored: map<nat, Stored>, sets: seq<ReplicaSet>, max: int, i: nat)
    requires Cleaned(stored, sets, max) && i < |sets|
    ensures Kept(stored, sets[i])
    decreases |sets|
  {
    if i > 0 { CleanedAt(stored, sets[1..], max - UnavailOf(sets[0]), i - 1); }
  }

  /** The head of a list, when something after it is scaled down. */
  lemma HeadIsEmptied(fault: nat -> Fault, s: Server, sets: seq<ReplicaSet>, max: int, spare: int, total: int)
    requires sets != [] && AfterCleanup(s, sets, max) && total < spare && (forall k :: fault(k) == NoFault)
    requires !Clash(sets, max, spare - total, 0) && ScaleDownOne(fault, s, sets[0], spare, total).count < spare
    ensures var o := ScaleDownOne(fault, s, sets[0], spare, total);
            sets[0].name in o.server.sets && o.server.sets[sets[0].name].spec == 0
  {
    NoClashTail(sets, max, spare - total);
  }

  /** No set is scaled down while an older one still has replicas. */
  lemma {:induction false} ScaleDownOldestFirst(
    fault: nat -> Fault, s: Server, sets: seq<ReplicaSet>, max: int, spare: int, total: int, i: nat, j: nat)
    requires AfterCleanup(s, sets, max) && total <= spare && (forall k :: fault(k) == NoFault) && NoClash(sets, max, spare - total)
    requires i < j < |sets| && sets[j].name in s.sets
    ensures var stored := ScaleDown(fault, s, sets, spare, total).server.sets;
            && sets[i].name in stored && sets[j].name in stored
            && (stored[sets[j].name].spec < s.sets[sets[j].name].spec ==> stored[sets[i].name].spec == 0)
    decreases |sets|
  {
    CleanedAt(s.sets, sets, max, i);
    if total < spare {
      var o, rest, max' := ScaleDownOne(fault, s, sets[0], spare, total), sets[1..], max - UnavailOf(sets[0]);
      NoClashTail(sets, max, spare - total);
      DownStep(fault, s, sets, max, spare, total);
      NamesHold(rest, j - 1);
      ScaleDownOneEffect(fault, s, sets[0], spare, total);
      NextSpare(rest, max', spare - o.count, spare - total - SpecOf(sets[0]));
      DownRemoves(fault, o.server, rest, max', spare, o.count);
      if i > 0 {
        ScaleDownOldestFirst(fault, o.server, rest, max', spare, o.count, i - 1, j - 1);
      } else if o.count < spare {
        HeadIsEmptied(fault, s, sets, max, spare, total);
      }
    }
  }

  /** The first set, when one after it is cleaned up. */
  lemma {:induction false} CleanupHeadFirst(fault: nat -> Fault, s: Server, sets: seq<ReplicaSet>, max: int, total: int, j: nat)
    requires All(sets, Sane) && Distinct(sets) && All(sets, FreshIn(s.sets)) && total < max && (forall k :: fault(k) == NoFault)
    requires 0 < j < |sets|
    ensures var o := CleanupOne(fault, s, sets[0], max, total);
            var stored := Cleanup(fault, o.server, sets[1..], max, o.count).server.sets;
            && sets[0].name in stored && sets[j].name in stored
            && (stored[sets[j].name].spec < sets[j].spec ==> stored[sets[0].name].spec == sets[0].avail)
  {
    var o, rest := CleanupOne(fault, s, sets[0], max, total), sets[1..];
    CleanupOneEffect(fault, s, sets[0], max, total);
    Frame(rest, s.sets, o.server.sets);
    AllFreshAt(rest, o.server.sets, j - 1);
    CleanupEffect(fault, o.server, rest, max, o.count);
  }

  /** No set is cleaned up while an older one still has replicas that are unavailable. */
  lemma {:induction false} CleanupOldestFirst(fault: nat -> Fault, s: Server, sets: seq<ReplicaSet>, max: int, total: int, i: nat, j: nat)
    requires All(sets, Sane) && Distinct(sets) && All(sets, FreshIn(s.sets)) && total <= max && (forall k :: fault(k) == NoFault)
    requires i < j < |sets|
    ensures var stored := Cleanup(fault, s, sets, max, total).server.sets;
            && sets[i].name in stored && sets[j].name in stored
            && (stored[sets[j].name].spec < sets[j].spec ==> stored[sets[i].name].spec == sets[i].avail)
    decreases |sets|
  {
    if total == max {
      AllFreshAt(sets, s.sets, i);
      AllFreshAt(sets, s.sets, j);
    } else {
      var o, rest := CleanupOne(fault, s, sets[0], max, total), sets[1..];
      CleanupOneEffect(fault, s, sets[0], max, total);
      assert Cleanup(fault, s, sets, max, total) == Cleanup(fault, o.server, rest, max, o.count);
      if i == 0 {
        CleanupHeadFirst(fault, s, sets, max, total, j);
      } else {
        Frame(rest, s.sets, o.server.sets);
        CleanupOldestFirst(fault, o.server, rest, max, o.count, i - 1, j - 1);
      }
    }
  }

  lemma {:induction false} AllFreshAt(sets: seq<ReplicaSet>, stored: map<nat, Stored>, i: nat)
    requires All(sets, FreshIn(stored)) && i < |sets|
    ensures Fresh(stored, sets[i])
  {
    if i > 0 { AllFreshAt(sets[1..], stored, i - 1); }
  }

  /** Where a set is in the sorted list, and that an older one comes before. */
  lemma Positions(olds: seq<ReplicaSet>, a: ReplicaSet, b: ReplicaSet) returns (i: nat, j: nat)
    requires a in olds && b in olds && (a.created < b.created || (a.created == b.created && a.name < b.name))
    ensures i < j < |ByCreation(olds)| && ByCreation(olds)[i] == a && ByCreation(olds)[j] == b
  {
    SortedByCreation(olds);
    assert a in multiset(ByCreation(olds)) && b in multiset(ByCreation(olds));
    i :| 0 <= i < |ByCreation(olds)| && ByCreation(olds)[i] == a;
    j :| 0 <= j < |ByCreation(olds)| && ByCreation(olds)[j] == b;
  }

  /**
   In a pass without write errors and without a clash, no replica of a set is cleaned up while a
   set created earlier still has unavailable ones, and none is scaled down while a set created
   earlier has any. (Of sets created at the same time, the one with the smaller name counts as
   earlier.)
   */
  lemma {:induction false} OldestSetsFirst(
    fault: nat -> Fault, s: Server, olds: seq<ReplicaSet>, current: ReplicaSet, d: Deployment, max: int, a: ReplicaSet, b: ReplicaSet)
    requires Ready(s, olds) && (forall k :: fault(k) == NoFault) && max >= 0 && NoClash(ByCreation(olds), max, Spare(olds, current, d))
    requires a in olds && b in olds && (a.created < b.created || (a.created == b.created && a.name < b.name))
    ensures var sorted := ByCreation(olds);
            var cleaned := Cleanup(fault, s, sorted, max, 0).server;
            var end := ScaleDownOld(fault, cleaned, sorted + [current], sorted, d).server.sets;
            && a.name in end && b.name in end && a.name in cleaned.sets && b.name in cleaned.sets
            && (cleaned.sets[b.name].spec < b.spec ==> cleaned.sets[a.name].spec == a.avail)
            && (end[b.name].spec < cleaned.sets[b.name].spec ==> end[a.name].spec == 0)
            && (max == MaxScaledDown(olds, current, d) > 0 && Sum(olds, SpecOf) != 0 ==> Pass(fault, s, olds, current, d).0.sets == end)
  {
    CleanupExact(fault, s, olds, max);
    var sorted, spare := ByCreation(olds), Spare(olds, current, d);
    var i, j := Positions(olds, a, b);
    var cleaned := Cleanup(fault, s, sorted, max, 0).server;
    SortReady(s, olds, AvailOf);
    SortedOnce(olds);
    CleanupOldestFirst(fault, s, sorted, max, 0, i, j);
    ScaleDownOldIs(fault, cleaned, sorted, current, d);
    assert Spare(sorted, current, d) == spare;
    if spare > 0 {
      CleanupMarks(fault, s, sorted, max, 0);
      ScaleDownOldestFirst(fault, cleaned, sorted, max, spare, 0, i, j);
    }
  }

  /**
   One pass, whatever happens to its writes, leaves as many available replicas as there were, or
   at least the deployment's minimum.
   */
  lemma {:induction false} PassKeepsAvailability(fault: nat -> Fault, s: Server, olds: seq<ReplicaSet>, current: ReplicaSet, d: Deployment)
    requires Ready(s, olds)
    ensures var s' := Pass(fault, s, olds, current, d).0;
            var left := Sum(olds, LeftIn(s'.sets));
            left >= 0 && left + current.avail >= Min(Sum(olds, AvailOf) + current.avail, d.replicas - MaxUnavailable(d))
  {
    SumBounds(olds, s.sets);
    var max := MaxScaledDown(olds, current, d);
    if Sum(olds, SpecOf) != 0 && max > 0 {
      var cleanup := Cleanup(fault, s, ByCreation(olds), max, 0);
      CleanupLosesNone(fault, s, olds, max);
      if cleanup.ok { DownKeepsSorted(fault, cleanup.server, olds, current, d); }
    }
  }

  lemma {:induction false} DownKeepsSorted(fault: nat -> Fault, s: Server, olds: seq<ReplicaSet>, current: ReplicaSet, d: Deployment)
    requires var sorted := ByCreation(olds); All(sorted, Sane) && Distinct(sorted) && All(sorted, KeptIn(s.sets))
    ensures var sorted := ByCreation(olds);
            var left := Sum(olds, LeftIn(ScaleDownOld(fault, s, sorted + [current], sorted, d).server.sets));
            left >= 0 && left + current.avail >= Min(Sum(olds, AvailOf) + current.avail, d.replicas - MaxUnavailable(d))
  {
    var sorted := ByCreation(olds);
    var down := ScaleDownOld(fault, s, sorted + [current], sorted, d);
    DownKeepsAvailability(fault, s, sorted, current, d);
    SortKeeps(olds, AvailOf, Sane);
    SortKeeps(olds, LeftIn(down.server.sets), Sane);
  }

  lemma CleanupLosesNone(fault: nat -> Fault, s: Server, olds: seq<ReplicaSet>, max: int)
    requires Ready(s, olds) && max >= 0
    ensures var o := Cleanup(fault, s, ByCreation(olds), max, 0);
            && All(ByCreation(olds), Sane) && Distinct(ByCreation(olds)) && All(ByCreation(olds), KeptIn(o.server.sets))
            && Sum(olds, LeftIn(o.server.sets)) == Sum(olds, AvailOf)
  {
    var o := Cleanup(fault, s, ByCreation(olds), max, 0);
    SortReady(s, olds, AvailOf);
    SortReady(s, olds, LeftIn(o.server.sets));
    CleanupEffect(fault, s, ByCreation(olds), max, 0);
    SumBounds(ByCreation(olds), o.server.sets);
  }

  lemma {:induction false} DownKeepsAvailability(fault: nat -> Fault, s: Server, olds: seq<ReplicaSet>, current: ReplicaSet, d: Deployment)
    requires All(olds, Sane) && Distinct(olds) && All(olds, KeptIn(s.sets))
    ensures var o := ScaleDownOld(fault, s, olds + [current], olds, d);
            var left := Sum(olds, LeftIn(o.server.sets));
            left >= 0 && left + current.avail >= Min(Sum(olds, AvailOf) + current.avail, d.replicas - MaxUnavailable(d))
  {
    SumBounds(olds, s.sets);
    ScaleDownOldIs(fault, s, olds, current, d);
    var spare := Spare(olds, current, d);
    if spare > 0 {
      var o := ScaleDown(fault, s, ByCreation(olds), spare, 0);
      SortKeeps(olds, AvailOf, Sane);
      SortKeeps(olds, LeftIn(o.server.sets), KeptIn(s.sets));
      ScaleDownEffect(fault, s, ByCreation(olds), spare, 0);
    }
  }

  // ---------------------------------------------------------------------------------------
  // The documented bound
  // ---------------------------------------------------------------------------------------

  /** The allowances resolve to non-negative numbers, as the API's validation requires. */
  predicate Validated(d: Deployment) {
    MaxUnavailable(d) >= 0 && DocumentedMaxUnavailable(d) >= 0
  }

  /** Every pass respects the documented allowance. */
  ghost predicate RespectsDocumentation(d: Deployment) {
    forall fault, s, olds, current :: Ready(s, olds) && Sane(current) ==>
      Sum(olds, LeftIn(Pass(fault, s, olds, current, d).0.sets)) + current.avail
      >= Min(Sum(olds, AvailOf) + current.avail, d.replicas - DocumentedMaxUnavailable(d))
  }

  /** The first pass after a change of the deployment: one healthy old set, the current one still empty. */
  lemma FirstPass(d: Deployment, fault: nat -> Fault, s: Server, rs: ReplicaSet, current: ReplicaSet)
    requires fault(s.writes) == NoFault && Fresh(s.sets, rs) && rs.spec == rs.avail == d.replicas
    requires d.replicas > 0 && MaxUnavailable(d) > 0 && current.spec == current.avail == 0
    ensures Pass(fault, s, [rs], current, d).0
         == Scale(fault, s, rs, d.replicas - Min(d.replicas, MaxUnavailable(d))).0
  {
    var olds := [rs];
    assert olds[1..] == [];
    assert ByCreation(olds) == Insert(rs, []) == olds;
    assert Sum(olds, SpecOf) == d.replicas + Sum([], SpecOf) && Sum(olds, AvailOf) == d.replicas + Sum([], AvailOf);
    SumAppend(olds, [current], SpecOf);
    assert Sum([current], SpecOf) == current.spec + Sum([current][1..], SpecOf);
    ScaleDownOldIs(fault, s, olds, current, d);
    assert Cleanup(fault, s, olds, MaxUnavailable(d), 0) == Cleanup(fault, s, olds[1..], MaxUnavailable(d), 0);
  }

  /** The pass respects the documentation exactly if the surge is not the larger allowance, or nothing need be available. */
  lemma DocumentedBoundIff(d: Deployment)
    requires d.replicas >= 0 && Validated(d)
    ensures RespectsDocumentation(d) <==> MaxUnavailable(d) <= DocumentedMaxUnavailable(d) || d.replicas <= DocumentedMaxUnavailable(d)
  {
    if MaxUnavailable(d) <= DocumentedMaxUnavailable(d) || d.replicas <= DocumentedMaxUnavailable(d) {
      forall fault, s, olds, current | Ready(s, olds) && Sane(current)
        ensures Sum(olds, LeftIn(Pass(fault, s, olds, current, d).0.sets)) + current.avail
             >= Min(Sum(olds, AvailOf) + current.avail, d.replicas - DocumentedMaxUnavailable(d))
      {
        PassKeepsAvailability(fault, s, olds, current, d);
      }
    } else {
      DocumentedBoundBroken(d);
    }
  }

  lemma DocumentedBoundBroken(d: Deployment)
    requires d.replicas > DocumentedMaxUnavailable(d) && MaxUnavailable(d) > DocumentedMaxUnavailable(d) >= 0
    ensures !RespectsDocumentation(d)
  {
    var rs, current := ReplicaSet(0, 0, 0, d.replicas, d.replicas), ReplicaSet(1, 1, 0, 0, 0);
    var s := Server(map[0 := Stored(0, d.replicas)], 0);
    var fault := (k: nat) => NoFault;
    FirstPass(d, fault, s, rs, current);
    assert [rs][1..] == [];
    var s' := Pass(fault, s, [rs], current, d).0;
    assert Sum([rs], LeftIn(s'.sets)) == LeftIn(s'.sets)(rs) + Sum([], LeftIn(s'.sets));
    assert Sum([rs], AvailOf) == rs.avail + Sum([], AvailOf);
    assert All([], Sane) && All([], FreshIn(s.sets)) && Ready(s, [rs]);
  }

  /**
   In the numbers that the user gives: for a rolling update with well-formed allowances, the
   documented bound holds exactly if the surge, rounded up, is at most the unavailable allowance,
   rounded down, or that allowance covers all replicas.
   */
  lemma DocumentedBoundInNumbers(d: Deployment)
    requires d.rolling && d.replicas > 0 && !d.maxSurge.Malformed? && !d.maxUnavailable.Malformed?
    requires Scaled(d.maxSurge, d.replicas, true) >= 0 && Scaled(d.maxUnavailable, d.replicas, false) >= 0
    ensures var surge, unavailable := Scaled(d.maxSurge, d.replicas, true), Scaled(d.maxUnavailable, d.replicas, false);
            && MaxUnavailable(d) == surge
            && DocumentedMaxUnavailable(d) == (if surge == 0 && unavailable == 0 then 1 else unavailable)
            && (RespectsDocumentation(d) <==> surge <= unavailable || d.replicas <= unavailable)
  {
    DocumentedBoundIff(d);
  }
}

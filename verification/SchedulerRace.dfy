/**
 Exactly when the scheduler respects the capacity of the targets: if all of its workers belong to
 one process. With two processes both may count before either patches.
 */
module SchedulerRace {
  import opened Basics
  import opened Scheduler

  ghost predicate Reaches(start: State, end: State) {
    exists states: seq<State>, steps: seq<Step> ::
      Trace(states, steps) && states[0] == start && states[|steps|] == end
  }

  lemma ReachesSelf(s: State)
    ensures Reaches(s, s)
  {
    var states, steps: seq<Step> := [s], [];
    assert Trace(states, steps) && states[0] == s && states[|steps|] == s;
  }

  lemma ReachesStep(start: State, s: State, a: Step, s': State)
    requires Reaches(start, s) && Enabled(s, a) && s' == Apply(s, a)
    ensures Reaches(start, s')
  {
    var states, steps :| Trace(states, steps) && states[0] == start && states[|steps|] == s;
    var longer, more := states + [s'], steps + [a];
    assert Trace(longer, more) && longer[0] == start && longer[|more|] == s';
  }

  lemma MoveTwice(s: State, w: nat, p: Phase, p': Phase)
    requires w in s.workers && HoldsMutex(p')
    ensures Move(Move(s, w, p), w, p') == Move(s, w, p')
  {
    assert Move(Move(s, w, p), w, p').workers == Move(s, w, p').workers;
    assert Move(Move(s, w, p), w, p').mutex == Move(s, w, p').mutex;
  }

  /** A worker step that stores nothing and leaves its worker in phase `p'`. */
  lemma MoveStep(start: State, s: State, p: Phase, a: Step, p': Phase)
    requires ByWorker(a) && a.w in s.workers && HoldsMutex(p')
    requires Reaches(start, Move(s, a.w, p)) && Enabled(Move(s, a.w, p), a)
    requires !a.Patch? && PhaseAfter(Move(s, a.w, p), a) == p'
    ensures Reaches(start, Move(s, a.w, p'))
  {
    MoveTwice(s, a.w, p, p');
    ReachesStep(start, Move(s, a.w, p), a, Move(s, a.w, p'));
  }

  /** One worker runs alone from Idle until it has found its NF unbound. */
  lemma StartAlone(start: State, s: State, w: nat, nf: NF)
    requires Reaches(start, s)
    requires w in s.workers && s.workers[w].phase.Idle? && s.workers[w].process !in s.mutex
    requires nf in s.api.served && nf.target == "" && nf.key in s.api.store && s.api.store[nf.key].target == ""
    ensures Reaches(start, Move(s, w, LiveUnbound(nf)))
  {
    ReachesStep(start, s, Fetch(w, nf), Move(s, w, Waiting(nf)));
    MoveStep(start, s, Waiting(nf), Lock(w), Locked(nf));
    MoveStep(start, s, Locked(nf), ReadLive(w), LiveUnbound(nf));
  }

  /** And from there to the point where it is about to patch. */
  lemma DecideAlone(start: State, s: State, w: nat, nf: NF, t: Target, items: seq<NF>, used: map<Name, int>)
    requires Reaches(start, s)
    requires w in s.workers && s.workers[w].phase.Idle? && s.workers[w].process !in s.mutex
    requires nf in s.api.served && nf.target == "" && nf.key in s.api.store && s.api.store[nf.key].target == ""
    requires t in s.servedTargets && Lists(items, s.api.store) && CountsBindings(used, items)
    ensures Reaches(start, Move(s, w, Counted(nf, [t], used)))
  {
    StartAlone(start, s, w, nf);
    MoveStep(start, s, LiveUnbound(nf), ListTargets(w, [t]), Listed(nf, [t]));
    MoveStep(start, s, Listed(nf, [t]), Count(w, items, used), Counted(nf, [t], used));
  }

  lemma ListingCons(store: map<Key, NF>, k: Key, rest: seq<NF>)
    requires (forall j :: j in store ==> store[j].key == j) && k in store && Lists(rest, store - {k})
    ensures Lists([store[k]] + rest, store)
  {
    var items := [store[k]] + rest;
    forall i | 0 <= i < |items| ensures items[i].key in store && store[items[i].key] == items[i] {
      if i > 0 { assert items[i] == rest[i - 1]; }
    }
    forall i, j | 0 <= i < j < |items| ensures items[i].key != items[j].key {
      assert items[j] == rest[j - 1];
      if i > 0 { assert items[i] == rest[i - 1]; }
    }
    forall k' | k' in store ensures store[k'] in items {
      if k' != k { assert k' in store - {k} && store[k'] in rest; }
    }
  }

  /** A store can be listed. */
  lemma {:induction false} SomeListing(store: map<Key, NF>) returns (items: seq<NF>)
    requires forall k :: k in store ==> store[k].key == k
    ensures Lists(items, store)
    decreases |store|
  {
    items := [];
    if store != map[] {
      var k :| k in store;
      var rest := SomeListing(store - {k});
      ListingCons(store, k, rest);
      items := [store[k]] + rest;
    }
  }

  /** A list can be counted. */
  lemma {:induction false} SomeCount(items: seq<NF>) returns (used: map<Name, int>)
    ensures CountsBindings(used, items)
    decreases |items|
  {
    used := map[];
    if items != [] {
      var last := items[|items| - 1];
      used := SomeCount(items[..|items| - 1]);
      if last.target != "" { used := used[last.target := Used(used, last.target) + 1]; }
    }
  }

  /** Two NFs that are not bound, and a target with one slot that nothing is bound to. */
  ghost predicate RaceReady(s: State, a: NF, b: NF, t: Target) {
    && a.key != b.key && a.target == "" && b.target == "" && a in s.api.served && b in s.api.served
    && a.key in s.api.store && s.api.store[a.key] == a && b.key in s.api.store && s.api.store[b.key] == b
    && t.name != "" && t.slots == 1 && !t.tainted && t in s.servedTargets
    && t.name in s.targets && s.targets[t.name] == t && BoundTo(s.api.store, t.name) == {}
    && forall k :: k in s.api.store ==> s.api.store[k].key == k
  }

  /** The environment creates two NFs. */
  lemma CreateTwo(s: State) returns (r: State, a: NF, b: NF)
    requires Init(s)
    ensures Reaches(s, r) && r.targets == s.targets && r.servedTargets == s.servedTargets && r.workers == s.workers && r.mutex == s.mutex
    ensures a.key != b.key && a.target == "" && b.target == "" && a in r.api.served && b in r.api.served
    ensures a.key !in s.api.store && b.key !in s.api.store && r.api.store == s.api.store[a.key := a][b.key := b]
  {
    ReachesSelf(s);
    var k := UnusedName(s.api.store.Keys);
    var s1 := Apply(s, Create(k));
    ReachesStep(s, s, Create(k), s1);
    var k' := UnusedName(s1.api.store.Keys);
    r := Apply(s1, Create(k'));
    ReachesStep(s, s1, Create(k'), r);
    a, b := s1.api.store[k], r.api.store[k'];
  }

  /** From every start, the environment can create such NFs and such a target. */
  lemma SetUpRace(s: State) returns (r: State, a: NF, b: NF, t: Target)
    requires Init(s)
    ensures Reaches(s, r) && RaceReady(r, a, b, t) && r.workers == s.workers && r.mutex == s.mutex
  {
    var s2: State;
    s2, a, b := CreateTwo(s);
    var name := UnusedName(s.targets.Keys);
    t := Target(name, 1, false);
    r := Apply(s2, PutTarget(t));
    ReachesStep(s, s2, PutTarget(t), r);
    assert |BoundTo(s.api.store, name)| <= Slots(s.targets, name);
    assert BoundTo(r.api.store, name) == BoundTo(s.api.store, name);
  }

  /** A patch decided on a count of zero for a target with one slot goes through. */
  lemma PatchGoesThrough(s: State, w: nat, nf: NF, t: Target, used: map<Name, int>)
    requires w in s.workers && s.workers[w].phase == Counted(nf, [t], used)
    requires nf.key in s.api.store && s.api.store[nf.key].key == nf.key && s.api.store[nf.key].version == nf.version
    requires t.slots == 1 && !t.tainted && Used(used, t.name) == 0
    ensures Apply(s, Patch(w)).api.store == s.api.store[nf.key := s.api.store[nf.key].(target := t.name, version := s.api.clock)]
    ensures Apply(s, Patch(w)).targets == s.targets
    ensures forall v :: v in s.workers && v != w ==> v in Apply(s, Patch(w)).workers && Apply(s, Patch(w)).workers[v] == s.workers[v]
  {
    assert [t][..0] == [];
    assert FeasibleOf([t], used) == [t];
  }

  /** Two workers of different processes have counted; both patches go through. */
  lemma BothPatch(start: State, s: State, w: nat, v: nat, a: NF, b: NF, t: Target, used: map<Name, int>) returns (end: State)
    requires Reaches(start, s) && RaceReady(s, a, b, t) && w != v && w in s.workers && v in s.workers
    requires s.workers[w].phase == Counted(a, [t], used) && s.workers[v].phase == Counted(b, [t], used) && Used(used, t.name) == 0
    ensures Reaches(start, end) && !WithinCapacity(end)
  {
    var s1 := Apply(s, Patch(w));
    ReachesStep(start, s, Patch(w), s1);
    PatchGoesThrough(s, w, a, t, used);
    end := Apply(s1, Patch(v));
    ReachesStep(start, s1, Patch(v), end);
    PatchGoesThrough(s1, v, b, t, used);
    assert {a.key, b.key} <= BoundTo(end.api.store, t.name);
    SubsetSize({a.key, b.key}, BoundTo(end.api.store, t.name));
    assert Slots(end.targets, t.name) == 1;
  }

  /** From every start with workers in two processes, a run overbooks a target: both count before either patches. */
  lemma TwoProcessesCanOverbook(s: State, w: nat, v: nat) returns (end: State)
    requires Init(s) && w in s.workers && v in s.workers && s.workers[w].process != s.workers[v].process
    ensures Reaches(s, end) && !WithinCapacity(end)
  {
    var r, a, b, t := SetUpRace(s);
    var items := SomeListing(r.api.store);
    var used := SomeCount(items);
    TallyIsBound(items, r.api.store, t.name);
    DecideAlone(s, r, w, a, t, items, used);
    var r1 := Move(r, w, Counted(a, [t], used));
    DecideAlone(s, r1, v, b, t, items, used);
    end := BothPatch(s, Move(r1, v, Counted(b, [t], used)), w, v, a, b, t, used);
  }

  /** Capacity is respected in every run from a start exactly if its workers belong to one process. */
  lemma CapacityIffOneProcess(s: State)
    requires Init(s)
    ensures (forall states: seq<State>, steps: seq<Step>, i: nat ::
               Trace(states, steps) && states[0] == s && i < |states| ==> WithinCapacity(states[i]))
            <==> OneProcess(s)
  {
    if OneProcess(s) {
      forall states: seq<State>, steps: seq<Step>, i: nat | Trace(states, steps) && states[0] == s && i < |states|
        ensures WithinCapacity(states[i])
      {
        NeverOverbooked(states, steps, i);
      }
    } else {
      var w, v :| w in s.workers && v in s.workers && s.workers[w].process != s.workers[v].process;
      var end := TwoProcessesCanOverbook(s, w, v);
      var states, steps :| Trace(states, steps) && states[0] == s && states[|steps|] == end;
      assert !WithinCapacity(states[|steps|]);
    }
  }

  /** A start: two idle workers of one process, and nothing stored. */
  lemma StartExists() returns (s: State)
    ensures Init(s) && OneProcess(s) && 0 in s.workers && 1 in s.workers
  {
    s := State(Api(map[], {}, 0), map[], {}, map[0 := Worker(0, Idle), 1 := Worker(0, Idle)], map[]);
    assert forall t: Name :: BoundTo(s.api.store, t) == {};
  }

  /** The bound is reached: from every start with a worker there is a run that fills a target. */
  lemma CapacityIsReached(s: State, w: nat) returns (end: State, name: Name)
    requires Init(s) && w in s.workers
    ensures Reaches(s, end) && name != "" && |BoundTo(end.api.store, name)| == Slots(end.targets, name) == 1
  {
    var r, a, b, t := SetUpRace(s);
    var items := SomeListing(r.api.store);
    var used := SomeCount(items);
    TallyIsBound(items, r.api.store, t.name);
    DecideAlone(s, r, w, a, t, items, used);
    var ready := Move(r, w, Counted(a, [t], used));
    PatchGoesThrough(ready, w, a, t, used);
    end, name := Apply(ready, Patch(w)), t.name;
    ReachesStep(s, ready, Patch(w), end);
    assert BoundTo(end.api.store, name) == {a.key};
  }
}

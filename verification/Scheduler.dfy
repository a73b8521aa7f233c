/**
 The NetworkFunction scheduler of the operator.

 The reconciler binds an unbound NetworkFunction (NF) to a P4Target that still has a free
 slot.  It works from cached, possibly stale, copies; a mutex serialises the decisions of one
 process, and the final patch carries an optimistic lock.  The protocol is modelled as atomic
 steps (one per API call or mutex operation) of any number of workers in any number of
 processes, interleaved with the other actors that use the API server.
 */
module Scheduler {
  import opened Basics

  type Name = string  // a P4Target name; the empty name means "not bound"
  type Key = string   // namespace/name of a NetworkFunction

  /** One stored version of a NetworkFunction.  `uid` tells apart objects that reuse a key. */
  datatype NF = NF(key: Key, target: Name, version: nat, uid: nat)

  /** One stored version of a P4Target: its slot capacity and whether a taint forbids scheduling. */
  datatype Target = Target(name: Name, slots: int, tainted: bool)

  // ---------------------------------------------------------------------------------------
  // The local computations: count, filter, pick
  // ---------------------------------------------------------------------------------------

  /** How many of the listed NFs name target `t`. */
  ghost function Tally(items: seq<NF>, t: Name): (n: nat) {
    if items == [] then 0
    else Tally(items[..|items| - 1], t) + if items[|items| - 1].target == t then 1 else 0
  }

  /** A lookup in a Go map of counters: a missing key counts zero. */
  function Used(used: map<Name, int>, t: Name): int {
    if t in used then used[t] else 0
  }

  ghost predicate CountsBindings(used: map<Name, int>, items: seq<NF>) {
    && "" !in used
    && forall t: Name :: t != "" ==> Used(used, t) == Tally(items, t)
  }

  method CountUsedSlots(items: seq<NF>) returns (used: map<Name, int>)
    ensures CountsBindings(used, items)
  {
    used := map[];
    for i := 0 to |items|
      invariant CountsBindings(used, items[..i])
    {
      assert items[..i + 1][..i] == items[..i];
      var target := items[i].target;
      if target != "" {
        used := used[target := Used(used, target) + 1];
      }
    }
    assert items[..|items|] == items;
  }

  predicate Feasible(t: Target, used: map<Name, int>) {
    !t.tainted && t.slots > 0 && t.slots - Used(used, t.name) > 0
  }

  /** The feasible targets in list order. */
  function FeasibleOf(all: seq<Target>, used: map<Name, int>): (feasible: seq<Target>)
    ensures forall t :: t in feasible <==> t in all && !t.tainted && t.slots > 0 && t.slots > Used(used, t.name)
  {
    if all == [] then []
    else
      var front := FeasibleOf(all[..|all| - 1], used);
      var last := all[|all| - 1];
      assert all == all[..|all| - 1] + [last];
      if Feasible(last, used) then front + [last] else front
  }

  /** Target number `i` has no forbidding taint and a free slot, and none before it has. */
  ghost predicate FirstFit(all: seq<Target>, used: map<Name, int>, i: nat) {
    && i < |all| && !all[i].tainted && all[i].slots > 0 && all[i].slots > Used(used, all[i].name)
    && forall j :: 0 <= j < i ==> all[j].tainted || all[j].slots <= 0 || all[j].slots <= Used(used, all[j].name)
  }

  /** No target has. */
  ghost predicate NoFit(all: seq<Target>, used: map<Name, int>) {
    forall j :: 0 <= j < |all| ==> all[j].tainted || all[j].slots <= 0 || all[j].slots <= Used(used, all[j].name)
  }

  /** The first feasible target is the first one in the list that fits; there is none exactly if none fits. */
  lemma {:induction false} FirstFeasible(all: seq<Target>, used: map<Name, int>)
    ensures FeasibleOf(all, used) == [] <==> NoFit(all, used)
    ensures forall i: nat :: FirstFit(all, used, i) ==> FeasibleOf(all, used) != [] && FeasibleOf(all, used)[0] == all[i]
    decreases |all|
  {
    if all != [] {
      var n, front := |all| - 1, all[..|all| - 1];
      FirstFeasible(front, used);
      forall i: nat | FirstFit(all, used, i) ensures FeasibleOf(all, used) != [] && FeasibleOf(all, used)[0] == all[i] {
        if i < n { assert FirstFit(front, used, i); } else { assert NoFit(front, used); }
      }
      if NoFit(all, used) {
        assert NoFit(front, used);
        assert all[n].tainted || all[n].slots <= 0 || all[n].slots <= Used(used, all[n].name);
      }
      if FeasibleOf(all, used) == [] {
        forall j | 0 <= j < |all| ensures all[j].tainted || all[j].slots <= 0 || all[j].slots <= Used(used, all[j].name) {
          if j < n { assert front[j] == all[j]; }
        }
      }
    }
  }

  method FilterFeasible(all: seq<Target>, used: map<Name, int>) returns (feasible: seq<Target>)
    ensures feasible == FeasibleOf(all, used)
    ensures forall t :: t in feasible <==> t in all && !t.tainted && t.slots > 0 && t.slots > Used(used, t.name)
    ensures feasible == [] <==> NoFit(all, used)
    ensures forall i: nat :: FirstFit(all, used, i) ==> feasible != [] && feasible[0] == all[i]
  {
    feasible := [];
    for i := 0 to |all|
      invariant feasible == FeasibleOf(all[..i], used)
    {
      assert all[..i + 1][..i] == all[..i];
      var t := all[i];
      if t.tainted { continue; }
      if t.slots <= 0 { continue; }
      if t.slots - Used(used, t.name) > 0 {
        feasible := feasible + [t];
      }
    }
    assert all[..|all|] == all;
    FirstFeasible(all, used);
  }

  // ---------------------------------------------------------------------------------------
  // The protocol
  // ---------------------------------------------------------------------------------------

  /** Where a worker is inside Reconcile/scheduleNetworkFunction; `nf` is its cached copy. */
  datatype Phase =
    | Idle
    | Waiting(nf: NF)                            // cached copy read, not yet holding the mutex
    | Locked(nf: NF)                             // holds the mutex
    | LiveUnbound(nf: NF)                        // the live read found no target
    | Listed(nf: NF, targets: seq<Target>)       // targets listed, from the cache
    | Counted(nf: NF, targets: seq<Target>, used: map<Name, int>)  // bindings listed live, counted

  datatype Worker = Worker(process: nat, phase: Phase)

  /** The stored NFs, every version ever stored (what a cache may still return), the next version. */
  datatype Api = Api(store: map<Key, NF>, served: set<NF>, clock: nat)

  datatype State = State(
    api: Api,
    targets: map<Name, Target>,
    servedTargets: set<Target>,
    workers: map<nat, Worker>,
    mutex: map<nat, nat>)            // process -> the worker holding its mutex

  datatype Step =
    // other actors
    | Create(key: Key)
    | Delete(key: Key)
    | Touch(key: Key)                // any update that leaves the binding alone
    | PutTarget(t: Target)           // a new target, or more capacity, or other taints
    // workers
    | Fetch(w: nat, nf: NF)
    | Lock(w: nat)
    | ReadLive(w: nat)
    | ListTargets(w: nat, listed: seq<Target>)
    | Count(w: nat, items: seq<NF>, counts: map<Name, int>)
    | Patch(w: nat)
    | Abort(w: nat)                  // an API call of the worker fails; the mutex is released

  predicate ByWorker(a: Step) {
    !a.Create? && !a.Delete? && !a.Touch? && !a.PutTarget?
  }

  predicate HoldsMutex(p: Phase) {
    p.Locked? || p.LiveUnbound? || p.Listed? || p.Counted?
  }

  function Slots(targets: map<Name, Target>, t: Name): nat {
    if t in targets && targets[t].slots > 0 then targets[t].slots else 0
  }

  /** `items` is a consistent list of the store: every object once, in some order. */
  ghost predicate Lists(items: seq<NF>, store: map<Key, NF>) {
    && (forall i :: 0 <= i < |items| ==> items[i].key in store && store[items[i].key] == items[i])
    && (forall i, j :: 0 <= i < j < |items| ==> items[i].key != items[j].key)
    && (forall k :: k in store ==> store[k] in items)
  }

  ghost predicate Enabled(s: State, a: Step) {
    match a
    case Create(k) => k !in s.api.store
    case Delete(k) => k in s.api.store
    case Touch(k) => k in s.api.store
    case PutTarget(t) => t.name != "" && Slots(s.targets, t.name) <= Slots(s.targets[t.name := t], t.name)
    case Fetch(w, nf) => w in s.workers && s.workers[w].phase.Idle? && nf in s.api.served && nf.target == ""
    case Lock(w) => w in s.workers && s.workers[w].phase.Waiting? && s.workers[w].process !in s.mutex
    case ReadLive(w) => w in s.workers && s.workers[w].phase.Locked?
    case ListTargets(w, listed) =>
      w in s.workers && s.workers[w].phase.LiveUnbound? && forall t :: t in listed ==> t in s.servedTargets
    case Count(w, items, counts) =>
      w in s.workers && s.workers[w].phase.Listed? && Lists(items, s.api.store) && CountsBindings(counts, items)
    case Patch(w) => w in s.workers && s.workers[w].phase.Counted?
    case Abort(w) => w in s.workers && HoldsMutex(s.workers[w].phase)
  }

  /** What a step does to the stored NFs. */
  datatype Change = Keep | Remove(key: Key) | Write(nf: NF)

  function Commit(api: Api, c: Change): Api {
    match c
    case Keep => api
    case Remove(k) => api.(store := api.store - {k})
    case Write(nf) => Api(api.store[nf.key := nf], api.served + {nf}, api.clock + 1)
  }

  /** The patch succeeds if the cached copy is the stored version; it writes the target only. */
  function PatchOf(api: Api, p: Phase): Change
    requires p.Counted?
  {
    var feasible := FeasibleOf(p.targets, p.used);
    if feasible == [] then Keep  // unschedulable
    else if p.nf.key in api.store && api.store[p.nf.key].version == p.nf.version then
      Write(api.store[p.nf.key].(target := feasible[0].name, version := api.clock))
    else Keep                    // not found, or a conflict because the cached copy was stale
  }

  ghost function ChangeOf(s: State, a: Step): Change
    requires Enabled(s, a)
  {
    match a
    case Create(k) => Write(NF(k, "", s.api.clock, s.api.clock))
    case Delete(k) => Remove(k)
    case Touch(k) => Write(s.api.store[k].(version := s.api.clock))
    case Patch(w) => PatchOf(s.api, s.workers[w].phase)
    case _ => Keep
  }

  ghost function PhaseAfter(s: State, a: Step): Phase
    requires Enabled(s, a) && ByWorker(a)
  {
    var p := s.workers[a.w].phase;
    match a
    case Fetch(w, nf) => Waiting(nf)
    case Lock(w) => Locked(p.nf)
    case ReadLive(w) =>
      if p.nf.key in s.api.store && s.api.store[p.nf.key].target == "" then LiveUnbound(p.nf) else Idle
    case ListTargets(w, listed) => Listed(p.nf, listed)
    case Count(w, items, counts) => Counted(p.nf, p.targets, counts)
    case _ => Idle
  }

  /** A worker moves to phase `p`, taking the mutex or releasing it (the deferred unlock) as needed. */
  function Move(s: State, w: nat, p: Phase): State
    requires w in s.workers
  {
    var worker := s.workers[w];
    s.(workers := s.workers[w := worker.(phase := p)],
       mutex := if HoldsMutex(p) then s.mutex[worker.process := w]
                else if HoldsMutex(worker.phase) then s.mutex - {worker.process}
                else s.mutex)
  }

  ghost function Apply(s: State, a: Step): State
    requires Enabled(s, a)
  {
    var committed := s.(api := Commit(s.api, ChangeOf(s, a)));
    if a.PutTarget? then
      s.(targets := s.targets[a.t.name := a.t], servedTargets := s.servedTargets + {a.t})
    else if ByWorker(a) then Move(committed, a.w, PhaseAfter(s, a))
    else committed
  }

  ghost predicate Trace(states: seq<State>, steps: seq<Step>) {
    && |states| == |steps| + 1
    && forall i {:trigger steps[i]} :: 0 <= i < |steps| ==>
         Enabled(states[i], steps[i]) && states[i + 1] == Apply(states[i], steps[i])
  }

  // ---------------------------------------------------------------------------------------
  // What holds of every run
  // ---------------------------------------------------------------------------------------

  /** The NFs bound to `t`. */
  ghost function BoundTo(store: map<Key, NF>, t: Name): set<Key> {
    set k | k in store && store[k].target == t
  }

  ghost predicate WithinCapacity(s: State) {
    forall t: Name :: t != "" ==> |BoundTo(s.api.store, t)| <= Slots(s.targets, t)
  }

  /** Versions identify contents, and the store holds served versions. */
  ghost predicate ApiConsistent(api: Api) {
    && (forall k :: k in api.store ==> api.store[k].key == k && api.store[k] in api.served)
    && (forall o :: o in api.served ==> o.version < api.clock && o.uid < api.clock)
    && (forall o, o' :: o in api.served && o' in api.served && o.version == o'.version ==> o == o')
  }

  ghost predicate TargetsConsistent(s: State) {
    forall t :: t in s.servedTargets ==> t.name != "" && t.slots <= Slots(s.targets, t.name)
  }

  /** A busy worker works from a served, unbound copy; one in the critical section owns the mutex. */
  ghost predicate WorkerConsistent(s: State, w: nat)
    requires w in s.workers
  {
    var p := s.workers[w].phase;
    && (!p.Idle? ==> p.nf in s.api.served && p.nf.target == "")
    && (p.Listed? || p.Counted? ==> forall t :: t in p.targets ==> t in s.servedTargets)
    && (HoldsMutex(p) ==> s.workers[w].process in s.mutex && s.mutex[s.workers[w].process] == w)
  }

  ghost predicate WorkersConsistent(s: State) {
    forall w :: w in s.workers ==> WorkerConsistent(s, w)
  }

  ghost predicate Consistent(s: State) {
    ApiConsistent(s.api) && TargetsConsistent(s) && WorkersConsistent(s)
  }

  /** A start: nobody is scheduling, and whatever is already bound fits. */
  ghost predicate Init(s: State) {
    && ApiConsistent(s.api) && TargetsConsistent(s)
    && s.mutex == map[] && (forall w :: w in s.workers ==> s.workers[w].phase.Idle?)
    && WithinCapacity(s)
  }

  /**
   The changes the API server ever sees: a write carries a fresh version; it creates an unbound
   object with a fresh uid, or it keeps the uid of the stored one and any target that one has.
   */
  ghost predicate Lawful(api: Api, c: Change) {
    c.Write? ==>
      && c.nf.version == api.clock
      && if c.nf.key in api.store then
           var o := api.store[c.nf.key];
           c.nf.uid == o.uid && (o.target != "" ==> c.nf.target == o.target)
         else c.nf.uid == api.clock && c.nf.target == ""
  }

  /** A patch never rebinds: at the stored version the cached copy is the stored, unbound object. */
  lemma StepLawful(s: State, a: Step)
    requires Consistent(s) && Enabled(s, a)
    ensures Lawful(s.api, ChangeOf(s, a))
  {
    if a.Patch? {
      assert WorkerConsistent(s, a.w);
      var nf := s.workers[a.w].phase.nf;
      if nf.key in s.api.store {
        var o := s.api.store[nf.key];
        assert o.version == nf.version ==> o == nf;
      }
    }
  }

  lemma CommitConsistent(api: Api, c: Change)
    requires ApiConsistent(api) && Lawful(api, c)
    ensures ApiConsistent(Commit(api, c)) && api.served <= Commit(api, c).served
  {
  }

  lemma TargetsStep(s: State, a: Step)
    requires TargetsConsistent(s) && Enabled(s, a)
    ensures TargetsConsistent(Apply(s, a)) && s.servedTargets <= Apply(s, a).servedTargets
    ensures forall t :: Slots(s.targets, t) <= Slots(Apply(s, a).targets, t)
  {
  }

  lemma WorkerStep(s: State, a: Step, w: nat)
    requires Consistent(s) && Enabled(s, a) && w in s.workers
    ensures w in Apply(s, a).workers && WorkerConsistent(Apply(s, a), w)
  {
    StepLawful(s, a);
    CommitConsistent(s.api, ChangeOf(s, a));
    assert WorkerConsistent(s, w);
    if ByWorker(a) {
      assert WorkerConsistent(s, a.w);
    }
  }

  lemma ConsistentStep(s: State, a: Step)
    requires Consistent(s) && Enabled(s, a)
    ensures Consistent(Apply(s, a))
  {
    StepLawful(s, a);
    CommitConsistent(s.api, ChangeOf(s, a));
    TargetsStep(s, a);
    forall w | w in Apply(s, a).workers ensures WorkerConsistent(Apply(s, a), w) {
      WorkerStep(s, a, w);
    }
  }

  lemma {:induction false} ConsistentRun(states: seq<State>, steps: seq<Step>, i: nat)
    requires Trace(states, steps) && Init(states[0]) && i < |states|
    ensures Consistent(states[i])
  {
    if i > 0 {
      ConsistentRun(states, steps, i - 1);
      ConsistentStep(states[i - 1], steps[i - 1]);
    }
  }

  // ---------------------------------------------------------------------------------------
  // A binding is never changed, by any number of processes
  // ---------------------------------------------------------------------------------------

  /** Every object of `then` that already existed at `now` is there, with any binding it had. */
  ghost predicate KeepsBindings(now: Api, then': Api) {
    && now.clock <= then'.clock
    && forall k :: k in then'.store && then'.store[k].uid < now.clock ==>
         && k in now.store && now.store[k].uid == then'.store[k].uid
         && (now.store[k].target != "" ==> then'.store[k].target == now.store[k].target)
  }

  lemma {:induction false} KeepsBindingsRun(states: seq<State>, steps: seq<Step>, i: nat, j: nat)
    requires Trace(states, steps) && Init(states[0]) && i <= j < |states|
    ensures KeepsBindings(states[i].api, states[j].api)
    decreases j - i
  {
    if i < j {
      KeepsBindingsRun(states, steps, i, j - 1);
      ConsistentRun(states, steps, j - 1);
      StepLawful(states[j - 1], steps[j - 1]);
      KeepsBindingsCommit(states[i].api, states[j - 1].api, ChangeOf(states[j - 1], steps[j - 1]));
    }
  }

  lemma KeepsBindingsCommit(now: Api, api: Api, c: Change)
    requires KeepsBindings(now, api) && Lawful(api, c)
    ensures KeepsBindings(now, Commit(api, c))
  {
  }

  /**
   Once an NF is bound, every later version of the same object names the same target, however
   many scheduler processes run and however stale their caches are.
   */
  lemma BindingIsPermanent(states: seq<State>, steps: seq<Step>, i: nat, j: nat, k: Key)
    requires Trace(states, steps) && Init(states[0]) && i <= j < |states|
    requires k in states[i].api.store && states[i].api.store[k].target != ""
    requires k in states[j].api.store && states[j].api.store[k].uid == states[i].api.store[k].uid
    ensures states[j].api.store[k].target == states[i].api.store[k].target
  {
    KeepsBindingsRun(states, steps, i, j);
    ConsistentRun(states, steps, i);
  }

  // ---------------------------------------------------------------------------------------
  // What a patch writes
  // ---------------------------------------------------------------------------------------

  /**
   In every run, a patch against the stored version binds the NF to the first target of the
   worker's list that has no forbidding taint and more slots than were counted, and writes nothing
   if there is none; a patch against another version writes nothing; nothing else ever changes.
   */
  lemma PatchBindsFirstFit(states: seq<State>, steps: seq<Step>, i: nat, w: nat)
    requires Trace(states, steps) && Init(states[0]) && i < |steps| && steps[i] == Patch(w)
    ensures w in states[i].workers && states[i].workers[w].phase.Counted?
    ensures var p, was, now := states[i].workers[w].phase, states[i].api.store, states[i + 1].api.store;
            var k := p.nf.key;
            if k !in was || was[k].version != p.nf.version then now == was
            else
              && was[k].target == ""
              && (NoFit(p.targets, p.used) ==> now == was)
              && (forall j: nat :: FirstFit(p.targets, p.used, j) ==>
                    k in now && now == was[k := now[k]] && now[k].target == p.targets[j].name != "" && now[k].uid == was[k].uid)
  {
    ConsistentRun(states, steps, i);
    PatchWrites(states[i], w);
    assert states[i + 1] == Apply(states[i], Patch(w));
  }

  lemma PatchWrites(s: State, w: nat)
    requires Consistent(s) && Enabled(s, Patch(w))
    ensures var p, was, now := s.workers[w].phase, s.api.store, Apply(s, Patch(w)).api.store;
            var k := p.nf.key;
            if k !in was || was[k].version != p.nf.version then now == was
            else
              && was[k].target == ""
              && (NoFit(p.targets, p.used) ==> now == was)
              && (forall j: nat :: FirstFit(p.targets, p.used, j) ==>
                    k in now && now == was[k := now[k]] && now[k].target == p.targets[j].name != "" && now[k].uid == was[k].uid)
  {
    var p := s.workers[w].phase;
    FirstFeasible(p.targets, p.used);
    assert WorkerConsistent(s, w);
    if p.nf.key in s.api.store && s.api.store[p.nf.key].version == p.nf.version {
      assert s.api.store[p.nf.key] == p.nf;
      forall j: nat | FirstFit(p.targets, p.used, j) ensures p.targets[j].name != "" {
        assert p.targets[j] in p.targets;
      }
    }
  }

  /** The live read of worker `w`, before step `i`, that found the NF with this key unbound. */
  ghost predicate ReadUnbound(states: seq<State>, steps: seq<Step>, i: nat, w: nat, k: Key, j: nat) {
    && j < i <= |steps| && |states| == |steps| + 1 && steps[j] == ReadLive(w)
    && k in states[j].api.store && states[j].api.store[k].target == ""
  }

  /** The count of worker `w`, before step `i`, over a complete list of the store. */
  ghost predicate CountedStore(states: seq<State>, steps: seq<Step>, i: nat, w: nat, used: map<Name, int>, j: nat) {
    && j < i <= |steps| && |states| == |steps| + 1 && steps[j].Count? && steps[j].w == w && steps[j].counts == used
    && Lists(steps[j].items, states[j].api.store) && CountsBindings(used, steps[j].items)
  }

  /** In every run, whoever is past the live read has found its NF unbound in the store, and whoever has counted has counted the store. */
  lemma {:induction false} DecidesOnLiveData(states: seq<State>, steps: seq<Step>, i: nat, w: nat)
    requires Trace(states, steps) && Init(states[0]) && i < |states| && w in states[i].workers
    ensures var p := states[i].workers[w].phase;
            && (p.LiveUnbound? || p.Listed? || p.Counted? ==> exists j: nat :: ReadUnbound(states, steps, i, w, p.nf.key, j))
            && (p.Counted? ==> exists j: nat :: CountedStore(states, steps, i, w, p.used, j))
  {
    if i > 0 {
      var s, a, p := states[i - 1], steps[i - 1], states[i].workers[w].phase;
      assert states[i] == Apply(s, a) && Enabled(s, a) && w in s.workers;
      DecidesOnLiveData(states, steps, i - 1, w);
      var q := s.workers[w].phase;
      if p.LiveUnbound? || p.Listed? || p.Counted? {
        if a == ReadLive(w) {
          assert ReadUnbound(states, steps, i, w, p.nf.key, i - 1);
        } else {
          assert (q.LiveUnbound? || q.Listed? || q.Counted?) && q.nf == p.nf;
          var j: nat :| ReadUnbound(states, steps, i - 1, w, p.nf.key, j);
          assert ReadUnbound(states, steps, i, w, p.nf.key, j);
        }
      }
      if p.Counted? {
        if a.Count? && a.w == w {
          assert CountedStore(states, steps, i, w, p.used, i - 1);
        } else {
          assert q == p;
          var j: nat :| CountedStore(states, steps, i - 1, w, p.used, j);
          assert CountedStore(states, steps, i, w, p.used, j);
        }
      }
    }
  }

  // ---------------------------------------------------------------------------------------
  // One process never overbooks a target
  // ---------------------------------------------------------------------------------------

  ghost predicate OneProcess(s: State) {
    forall w, w' :: w in s.workers && w' in s.workers ==> s.workers[w].process == s.workers[w'].process
  }

  /** The keys among the first `n` listed NFs that name target `t`. */
  ghost function KeysNaming(items: seq<NF>, n: nat, t: Name): set<Key>
    requires n <= |items|
  {
    set i | 0 <= i < n && items[i].target == t :: items[i].key
  }

  lemma {:induction false} TallyCountsKeys(items: seq<NF>, n: nat, t: Name)
    requires n <= |items|
    requires forall i, j :: 0 <= i < j < |items| ==> items[i].key != items[j].key
    ensures Tally(items[..n], t) == |KeysNaming(items, n, t)|
  {
    if n > 0 {
      TallyCountsKeys(items, n - 1, t);
      assert items[..n][..n - 1] == items[..n - 1];
      var before := KeysNaming(items, n - 1, t);
      if items[n - 1].target == t {
        assert KeysNaming(items, n, t) == before + {items[n - 1].key};
        assert items[n - 1].key !in before;
      } else {
        assert KeysNaming(items, n, t) == before;
      }
    }
  }

  /** A live list counts exactly the bindings in the store. */
  lemma TallyIsBound(items: seq<NF>, store: map<Key, NF>, t: Name)
    requires Lists(items, store) && forall k :: k in store ==> store[k].key == k
    ensures Tally(items, t) == |BoundTo(store, t)|
  {
    TallyCountsKeys(items, |items|, t);
    assert items[..|items|] == items;
    forall k | k in BoundTo(store, t) ensures k in KeysNaming(items, |items|, t) {
      var i :| 0 <= i < |items| && items[i] == store[k];
    }
    assert KeysNaming(items, |items|, t) == BoundTo(store, t);
  }

  /** Nobody has bound more since a worker in the critical section counted. */
  ghost predicate CountsUpToDate(s: State) {
    forall w, t: Name :: w in s.workers && s.workers[w].phase.Counted? && t != "" ==>
      |BoundTo(s.api.store, t)| <= Used(s.workers[w].phase.used, t)
  }

  ghost predicate OneProcessInv(s: State) {
    Consistent(s) && OneProcess(s) && CountsUpToDate(s) && WithinCapacity(s)
  }

  /** A change adds at most one binding to `t`, and only by writing an object that names `t`. */
  lemma BoundCommit(api: Api, c: Change, t: Name)
    ensures |BoundTo(Commit(api, c).store, t)| <= |BoundTo(api.store, t)| + 1
    ensures !(c.Write? && c.nf.target == t && (c.nf.key in api.store ==> api.store[c.nf.key].target != t)) ==>
              |BoundTo(Commit(api, c).store, t)| <= |BoundTo(api.store, t)|
  {
    var was, now := BoundTo(api.store, t), BoundTo(Commit(api, c).store, t);
    if c.Write? && c.nf.target == t && (c.nf.key in api.store ==> api.store[c.nf.key].target != t) {
      assert now == was + {c.nf.key};
    } else {
      SubsetSize(now, was);
    }
  }

  lemma BoundStep(s: State, a: Step, t: Name)
    requires ApiConsistent(s.api) && Enabled(s, a) && t != ""
    ensures |BoundTo(Apply(s, a).api.store, t)| <= |BoundTo(s.api.store, t)| + 1
    ensures !a.Patch? ==> |BoundTo(Apply(s, a).api.store, t)| <= |BoundTo(s.api.store, t)|
  {
    BoundCommit(s.api, ChangeOf(s, a), t);
  }

  /** The heart of the argument: a patch that binds to `t` was decided on a count that is still valid. */
  lemma PatchFits(s: State, w: nat, t: Name)
    requires OneProcessInv(s) && Enabled(s, Patch(w)) && t != ""
    ensures |BoundTo(Apply(s, Patch(w)).api.store, t)| <= Slots(s.targets, t)
  {
    var p := s.workers[w].phase;
    var feasible := FeasibleOf(p.targets, p.used);
    BoundCommit(s.api, PatchOf(s.api, p), t);
    if feasible != [] && feasible[0].name == t {
      assert WorkerConsistent(s, w);
      assert feasible[0] in feasible;
      assert |BoundTo(s.api.store, t)| <= Used(p.used, t) < feasible[0].slots <= Slots(s.targets, t);
    }
  }

  lemma CapacityStep(s: State, a: Step)
    requires OneProcessInv(s) && Enabled(s, a)
    ensures WithinCapacity(Apply(s, a))
  {
    TargetsStep(s, a);
    forall t: Name | t != "" ensures |BoundTo(Apply(s, a).api.store, t)| <= Slots(Apply(s, a).targets, t) {
      BoundStep(s, a, t);
      if a.Patch? { PatchFits(s, a.w, t); }
    }
  }

  /** The mutex admits one worker. */
  lemma MutualExclusion(s: State)
    requires WorkersConsistent(s) && OneProcess(s)
    ensures forall w, w' | w in s.workers && w' in s.workers ::
              HoldsMutex(s.workers[w].phase) && HoldsMutex(s.workers[w'].phase) ==> w == w'
  {
    forall w, w' | w in s.workers && w' in s.workers && HoldsMutex(s.workers[w].phase) && HoldsMutex(s.workers[w'].phase)
      ensures w == w'
    {
      assert WorkerConsistent(s, w) && WorkerConsistent(s, w');
    }
  }

  /** So no count goes stale while its worker is about to patch. */
  lemma CountsStep(s: State, a: Step, w: nat, t: Name)
    requires OneProcessInv(s) && Enabled(s, a) && t != ""
    ensures w in Apply(s, a).workers && Apply(s, a).workers[w].phase.Counted? ==>
              |BoundTo(Apply(s, a).api.store, t)| <= Used(Apply(s, a).workers[w].phase.used, t)
  {
    BoundStep(s, a, t);
    MutualExclusion(s);
    if a.Count? && a.w == w {
      TallyIsBound(a.items, s.api.store, t);
    }
  }

  lemma OneProcessStep(s: State, a: Step)
    requires OneProcessInv(s) && Enabled(s, a)
    ensures OneProcessInv(Apply(s, a))
  {
    ConsistentStep(s, a);
    CapacityStep(s, a);
    forall w, t: Name | w in Apply(s, a).workers && Apply(s, a).workers[w].phase.Counted? && t != ""
      ensures |BoundTo(Apply(s, a).api.store, t)| <= Used(Apply(s, a).workers[w].phase.used, t)
    {
      CountsStep(s, a, w, t);
    }
  }

  /**
   Whatever the interleaving, a single scheduler process never binds more NFs to a target than
   the target has slots.
   */
  lemma {:induction false} NeverOverbooked(states: seq<State>, steps: seq<Step>, i: nat)
    requires Trace(states, steps) && Init(states[0]) && OneProcess(states[0]) && i < |states|
    ensures OneProcessInv(states[i])
    ensures forall t: Name :: t != "" ==> |BoundTo(states[i].api.store, t)| <= Slots(states[i].targets, t)
  {
    if i == 0 {
      assert Consistent(states[0]);
    } else {
      NeverOverbooked(states, steps, i - 1);
      OneProcessStep(states[i - 1], steps[i - 1]);
    }
  }
}

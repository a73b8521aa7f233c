/**
 The NFs whose network forwarding is set up, in runs of the BMv2 network-function manager: how
 many they can be, and whether they are still tracked.
 */
module NfForwarding {
  import opened Basics
  import opened NfManager

  ghost predicate Reaches(start: State, end: State) {
    exists states: seq<State>, steps: seq<Step> ::
      Trace(states, steps) && states[0] == start && states[|steps|] == end
  }

  lemma ReachesSelf(s: State)
    ensures Reaches(s, s)
  {
    var states, steps: seq<Step> := [s], [];
    assert Trace(states, steps) && states[0] == s && states[|steps|] == s;
  }

  lemma ReachesStep(start: State, s: State, a: Step, s': State)
    requires Reaches(start, s) && Enabled(s, a) && s' == Apply(s, a)
    ensures Reaches(start, s')
  {
    var states, steps :| Trace(states, steps) && states[0] == start && states[|steps|] == s;
    var longer, more := states + [s'], steps + [a];
    assert Trace(longer, more) && longer[0] == start && longer[|more|] == s';
  }

  /** Goroutine `w` works on `k` under handle `h` and is at stage `g`. */
  function At(s: State, w: nat, k: Key, h: nat, kind: Kind, reg: Registry, g: Stage): State {
    State(reg, s.threads[w := Running(k, h, kind, g)], Some(w), s.slots)
  }

  /** One step of that goroutine; `ok` tells if its call succeeds. */
  lemma Work(start: State, s: State, w: nat, k: Key, h: nat, kind: Kind, ok: bool, reg: Registry, g: Stage, visit: Key, reg': Registry, g': Stage)
    requires Reaches(start, At(s, w, k, h, kind, reg, g)) && !g.Unlock? && (g.Check? && g.todo != {} ==> visit in g.todo)
    requires reg' == Perform(reg, WorkerEffect(Running(k, h, kind, g), ok))
    requires g' == NextStage(reg, s.slots, Running(k, h, kind, g), ok, visit)
    ensures Reaches(start, At(s, w, k, h, kind, reg', g'))
  {
    var a := Advance(w, ok, visit);
    var now, then' := At(s, w, k, h, kind, reg, g), At(s, w, k, h, kind, reg', g');
    assert Enabled(now, a);
    assert Apply(now, a).threads == then'.threads;
    ReachesStep(start, now, a, then');
  }

  /** The registry with handle `h` of `k` in a phase that is not terminal. */
  function Phased(reg: Registry, k: Key, h: nat, p: Phase): Registry {
    reg.(handles := reg.handles[h := Handle(k, p, false, 0, 0)])
  }

  /** Reporting a phase, before which the handle was not terminal. */
  lemma Report(start: State, s: State, w: nat, k: Key, h: nat, reg: Registry, p: Phase, p': Phase)
    requires !IsTerminal(p) && !IsTerminal(p') && Reaches(start, At(s, w, k, h, Present, Phased(reg, k, h, p), Enter(p')))
    ensures Reaches(start, At(s, w, k, h, Present, Phased(reg, k, h, p'), StageOf(reg, p')))
  {
    assert Perform(Phased(reg, k, h, p), SetPhase(h, p')) == Phased(reg, k, h, p');
    Work(start, s, w, k, h, Present, true, Phased(reg, k, h, p), Enter(p'), k, Phased(reg, k, h, p'), StageOf(reg, p'));
  }

  /** The pre-check counts nothing if nothing is ready. */
  lemma {:induction false} CheckAll(start: State, s: State, w: nat, k: Key, h: nat, reg: Registry, todo: set<Key>)
    requires Reaches(start, At(s, w, k, h, Present, reg, Check(todo, 0))) && ReadyKeys(reg) == {}
    ensures Reaches(start, At(s, w, k, h, Present, reg, Check({}, 0)))
    decreases |todo|
  {
    if todo != {} {
      var v :| v in todo;
      assert v !in ReadyKeys(reg);
      Work(start, s, w, k, h, Present, true, reg, Check(todo, 0), v, reg, Check(todo - {v}, 0));
      CheckAll(start, s, w, k, h, reg, todo - {v});
    }
  }

  /** From the start of the goroutine to the end of the pre-check. */
  lemma ReachDeploy(start: State, s: State, w: nat, k: Key, h: nat, reg: Registry)
    requires Reaches(start, At(s, w, k, h, Present, Phased(reg, k, h, Pending), Enter(Compiling)))
    requires s.slots > 0 && ReadyKeys(Phased(reg.(programs := reg.programs + {k}), k, h, PreCheck)) == {}
    ensures Reaches(start, At(s, w, k, h, Present, Phased(reg.(programs := reg.programs + {k}), k, h, PreCheck), Enter(Deploying)))
  {
    var with := reg.(programs := reg.programs + {k});
    Report(start, s, w, k, h, reg, Pending, Compiling);
    Work(start, s, w, k, h, Present, true, Phased(reg, k, h, Compiling), Compile, k, Phased(with, k, h, Compiling), Enter(PreCheck));
    Report(start, s, w, k, h, with, Compiling, PreCheck);
    var checked := Phased(with, k, h, PreCheck);
    CheckAll(start, s, w, k, h, checked, checked.ops.Keys);
    Work(start, s, w, k, h, Present, true, checked, Check({}, 0), k, checked, Enter(Deploying));
  }

  /** From there to the network setup. */
  lemma ReachSetup(start: State, s: State, w: nat, k: Key, h: nat, reg: Registry)
    requires Reaches(start, At(s, w, k, h, Present, Phased(reg, k, h, PreCheck), Enter(Deploying)))
    ensures Reaches(start, At(s, w, k, h, Present, Phased(reg, k, h, Deploying), Enter(NetworkSetup)))
  {
    Report(start, s, w, k, h, reg, PreCheck, Deploying);
    Work(start, s, w, k, h, Present, true, Phased(reg, k, h, Deploying), Deploy, k, Phased(reg, k, h, Deploying), Enter(NetworkSetup));
  }

  /** And to its end. */
  lemma ReachWired(start: State, s: State, w: nat, k: Key, h: nat, reg: Registry)
    requires Reaches(start, At(s, w, k, h, Present, Phased(reg, k, h, PreCheck), Enter(Deploying)))
    ensures Reaches(start, At(s, w, k, h, Present, Phased(reg.(wired := reg.wired + {k}), k, h, NetworkSetup), End(Ready)))
  {
    ReachSetup(start, s, w, k, h, reg);
    Report(start, s, w, k, h, reg, Deploying, NetworkSetup);
    Work(start, s, w, k, h, Present, true, Phased(reg, k, h, NetworkSetup), Setup, k, Phased(reg.(wired := reg.wired + {k}), k, h, NetworkSetup), End(Ready));
  }

  /** The report of a terminal phase. */
  lemma ReportEnd(start: State, s: State, w: nat, k: Key, h: nat, reg: Registry, p: Phase, q: Phase)
    requires !IsTerminal(p) && IsTerminal(q) && Reaches(start, At(s, w, k, h, Present, Phased(reg, k, h, p), End(q)))
    ensures Reaches(start, At(s, w, k, h, Present, reg.(handles := reg.handles[h := Handle(k, q, true, 1, 1)]), Unlock))
  {
    var ended := reg.(handles := reg.handles[h := Handle(k, q, false, 0, 0)]);
    var closed := reg.(handles := reg.handles[h := Handle(k, q, true, 1, 1)]);
    assert Perform(Phased(reg, k, h, p), SetPhase(h, q)) == ended;
    Work(start, s, w, k, h, Present, true, Phased(reg, k, h, p), End(q), k, ended, Close);
    assert Perform(ended, CloseDone(h)) == closed;
    Work(start, s, w, k, h, Present, true, ended, Close, k, closed, Unlock);
  }

  /** Nobody holds the lock, nothing is ready, caller `t` is idle, and what is wired was tracked once. */
  ghost predicate Quiet(s: State, t: nat) {
    && s.mu == None && t in s.threads && s.threads[t] == Idle
    && ReadyKeys(s.reg) == {} && s.reg.wired <= s.reg.ops.Keys
    && forall k :: k in s.reg.ops ==> s.reg.ops[k].handle in s.reg.handles
  }

  /** The tracked operation of `k` is replaced by one on handle `h`, whose goroutine `w` waits for the lock. */
  function Published(s: State, k: Key, kind: Kind, h: nat, w: nat): State {
    s.(reg := s.reg.(ops := s.reg.ops[k := Op(h, kind)], handles := s.reg.handles[h := Handle(k, Pending, false, 0, 0)]),
       threads := s.threads[w := Waiting(k, h, kind)])
  }

  /** EnsurePresent of an NF that is not tracked, and EnsureAbsent of one that is ready. */
  lemma Ensured(start: State, s: State, t: nat, k: Key, kind: Kind, h: nat, w: nat)
    requires Reaches(start, s) && t in s.threads && s.threads[t] == Idle && h !in s.reg.handles && w !in s.threads
    requires k in s.reg.ops ==> s.reg.ops[k].kind != kind && AtRest(s.reg, s.reg.ops[k].handle)
    ensures Reaches(start, Published(s, k, kind, h, w))
  {
    var asked := s.(threads := s.threads[t := Publishing(k, kind)]);
    if k in s.reg.ops {
      var c := s.reg.ops[k].handle;
      var canceling := s.(threads := s.threads[t := Canceling(c, Some((k, kind)))]);
      ReachesStep(start, s, Ensure(t, k, kind), canceling);
      assert Perform(s.reg, SetPhase(c, Canceled)) == s.reg;
      assert Apply(canceling, Advance(t, true, k)).threads == asked.threads;
      ReachesStep(start, canceling, Advance(t, true, k), asked);
    } else {
      ReachesStep(start, s, Ensure(t, k, kind), asked);
    }
    assert Apply(asked, Publish(t, h, w)).threads == Published(s, k, kind, h, w).threads;
    ReachesStep(start, asked, Publish(t, h, w), Published(s, k, kind, h, w));
  }

  /** Operations that were not ready stay so if only handle `h` changes, to a phase other than Ready. */
  lemma StillNotReady(reg: Registry, reg': Registry, k: Key, h: nat)
    requires ReadyKeys(reg) == {} && reg'.ops.Keys == reg.ops.Keys + {k}
    requires forall k' :: k' in reg.ops && k' != k ==> reg'.ops[k'] == reg.ops[k']
    requires forall c :: c in reg'.handles && c != h ==> c in reg.handles && reg'.handles[c] == reg.handles[c]
    requires h in reg'.handles && !reg'.handles[h].phase.Ready? && reg'.ops[k].handle == h
    ensures ReadyKeys(reg') == {}
  {
    forall k' | k' in reg'.ops ensures !ReadyOp(reg', k') {
      if k' != k { assert k' !in ReadyKeys(reg); }
    }
  }

  /** One NF is deployed, from EnsurePresent until it is ready and the lock is free again. */
  lemma DeployOne(start: State, s: State, t: nat, k: Key, h: nat, w: nat) returns (s': State)
    requires Reaches(start, s) && Quiet(s, t) && s.slots > 0 && k !in s.reg.ops && h !in s.reg.handles && w !in s.threads
    ensures Reaches(start, s') && s'.mu == None && s'.slots == s.slots && s'.threads == s.threads[w := Idle]
    ensures s'.reg.ops == s.reg.ops[k := Op(h, Present)] && s'.reg.wired == s.reg.wired + {k}
    ensures s'.reg.handles == s.reg.handles[h := Handle(k, Ready, true, 1, 1)] && s'.reg.programs == s.reg.programs + {k}
  {
    var base := s.reg.(ops := s.reg.ops[k := Op(h, Present)]);
    var with := base.(programs := base.programs + {k});
    var p := Published(s, k, Present, h, w);
    Ensured(start, s, t, k, Present, h, w);
    Acquired(start, p, w, k, h, Present);
    assert p.reg == Phased(base, k, h, Pending);
    StillNotReady(s.reg, Phased(with, k, h, PreCheck), k, h);
    ReachDeploy(start, p, w, k, h, base);
    ReachWired(start, p, w, k, h, with);
    var wired := with.(wired := with.wired + {k});
    ReportEnd(start, p, w, k, h, wired, NetworkSetup, Ready);
    var ready := wired.(handles := wired.handles[h := Handle(k, Ready, true, 1, 1)]);
    Unlocked(start, p, w, k, h, Present, ready);
    s' := State(ready, p.threads[w := Idle], None, s.slots);
    assert s'.threads == s.threads[w := Idle];
  }

  /** An NF is deployed and then marked absent, but its deletion does not get the lock: it stays wired. */
  lemma OneMoreWired(start: State, s: State, t: nat, k: Key) returns (s': State)
    requires Reaches(start, s) && Quiet(s, t) && s.slots > 0 && k !in s.reg.ops
    ensures Reaches(start, s') && Quiet(s', t) && s'.slots == s.slots && s'.reg.wired == s.reg.wired + {k}
  {
    var h := UnusedNumber(s.reg.handles.Keys);
    var w := UnusedNumber(s.threads.Keys);
    var q := DeployOne(start, s, t, k, h, w);
    var h' := UnusedNumber(q.reg.handles.Keys);
    var w' := UnusedNumber(q.threads.Keys);
    Ensured(start, q, t, k, Absent, h', w');
    s' := Published(q, k, Absent, h', w');
    NotReadyAgain(s.reg, s'.reg, k, h, h');
  }

  lemma NotReadyAgain(reg: Registry, reg': Registry, k: Key, h: nat, h': nat)
    requires ReadyKeys(reg) == {} && h !in reg.handles && h' !in reg.handles && h != h'
    requires forall k' :: k' in reg.ops ==> reg.ops[k'].handle in reg.handles
    requires reg'.ops == reg.ops[k := Op(h', Absent)]
    requires forall c :: c in reg.handles ==> c in reg'.handles && reg'.handles[c] == reg.handles[c]
    ensures ReadyKeys(reg') == {}
  {
    forall k' | k' in reg'.ops ensures !ReadyOp(reg', k') {
      if k' != k { assert k' !in ReadyKeys(reg); }
    }
  }

  /** So any number of NFs can be wired at the same time. */
  lemma {:induction false} ManyWired(start: State, s: State, t: nat, n: nat) returns (s': State)
    requires Reaches(start, s) && Quiet(s, t) && s.slots > 0
    ensures Reaches(start, s') && |s'.reg.wired| >= n
    decreases n - |s.reg.wired|
  {
    s' := s;
    if |s.reg.wired| < n {
      var name := UnusedName(set k | k in s.reg.ops :: k.name);
      var k := Key("", name);
      assert k !in s.reg.ops && k !in s.reg.wired;
      var next := OneMoreWired(start, s, t, k);
      s' := ManyWired(start, next, t, n);
    }
  }

  /** Without slots nothing is ever wired. */
  lemma {:induction false} NothingWired(states: seq<State>, steps: seq<Step>, i: nat)
    requires Trace(states, steps) && Init(states[0]) && i < |states| && states[0].slots <= 0
    ensures states[i].reg.wired == {}
  {
    if i > 0 {
      var s, a := states[i - 1], steps[i - 1];
      assert s.reg.wired == {} by { NothingWired(states, steps, i - 1); }
      assert Inv(s) by { InvRun(states, steps, i - 1); }
      assert s.slots <= 0 by { SlotsFixed(states, steps, i - 1); }
      NothingWiredStep(s, a);
      assert states[i] == Apply(s, a);
    }
  }

  lemma NothingWiredStep(s: State, a: Step)
    requires Inv(s) && Enabled(s, a) && s.slots <= 0 && s.reg.wired == {}
    ensures Apply(s, a).reg.wired == {}
  {
    assert ThreadOk(s, a.t);
    assert !EffectOf(s, a).Wire?;
  }

  /**
   The slots bound the operations that are tracked as ready, not the NFs that are wired: since an
   operation is replaced before the deletion of its NF gets the lock, from a start with a caller
   every run keeps the wired NFs within the slots exactly if there are no slots at all.
   */
  lemma WiredWithinSlotsIff(s: State, t: nat)
    requires Init(s) && t in s.threads
    ensures (forall states: seq<State>, steps: seq<Step>, i: nat ::
               Trace(states, steps) && states[0] == s && i < |states| ==> |states[i].reg.wired| <= if s.slots > 0 then s.slots else 0)
            <==> s.slots <= 0
  {
    if s.slots <= 0 {
      forall states: seq<State>, steps: seq<Step>, i: nat | Trace(states, steps) && states[0] == s && i < |states|
        ensures |states[i].reg.wired| <= if s.slots > 0 then s.slots else 0
      {
        NothingWired(states, steps, i);
      }
    } else {
      ReachesSelf(s);
      var end := ManyWired(s, s, t, s.slots + 1);
      var states: seq<State>, steps: seq<Step> :| Trace(states, steps) && states[0] == s && states[|steps|] == end;
      assert |states[|steps|].reg.wired| > s.slots;
    }
  }

  // ---------------------------------------------------------------------------------------
  // Runs in which nothing leaks
  // ---------------------------------------------------------------------------------------

  /** A goroutine of `k`, waiting for the lock or holding it. */
  predicate WorksOn(pc: Pc, k: Key) { (pc.Waiting? || pc.Running?) && pc.key == k }

  /**
   Operations are replaced in order: a new one is stored only while no goroutine of its NF waits
   for the lock, and a deployment only while none is running either.
   */
  ghost predicate Orderly(s: State, a: Step) {
    a.Publish? && a.t in s.threads && s.threads[a.t].Publishing? ==>
      forall t :: t in s.threads && WorksOn(s.threads[t], s.threads[a.t].key) ==> s.threads[t].Running? && s.threads[a.t].kind.Absent?
  }

  predicate Compiled(g: Stage) {
    g.Check? || g.Deploy? || g.Setup? || (g.Enter? && (g.p.PreCheck? || g.p.Deploying? || g.p.NetworkSetup?))
  }

  /** A deployment is tracked, and has its program once that is compiled; a deletion never meets a deployment. */
  predicate StageTracked(reg: Registry, k: Key, kind: Kind, g: Stage) {
    && StageFits(kind, g)
    && (kind.Present? && Compiled(g) ==> k in reg.programs)
    && (g.Decide? ==> g.op.kind.Absent?)
    && (g.DropOp? ==> !g.alsoProgram && k !in reg.programs) && !g.DropProgram?
  }

  predicate PcTracked(reg: Registry, pc: Pc) {
    pc.Waiting? || pc.Running? ==>
      && (if pc.kind.Present? then pc.key in reg.ops else pc.key in reg.ops ==> reg.ops[pc.key].kind.Absent?)
      && (pc.Running? ==> StageTracked(reg, pc.key, pc.kind, pc.stage))
  }

  /** A deployment that waits for the lock is the only goroutine of its NF. */
  ghost predicate Alone(threads: map<nat, Pc>, t: nat)
    requires t in threads
  {
    threads[t].Waiting? && threads[t].kind.Present? ==>
      forall t' :: t' in threads && t' != t ==> !WorksOn(threads[t'], threads[t].key)
  }

  ghost predicate AllTracked(s: State) {
    && (forall k :: k in s.reg.wired ==> k in s.reg.ops && k in s.reg.programs)
    && (forall t :: t in s.threads ==> PcTracked(s.reg, s.threads[t]) && Alone(s.threads, t))
  }

  /** The effects that can occur: programs are not removed, and only NFs without one are no longer tracked. */
  lemma TrackedEffect(s: State, a: Step)
    requires Inv(s) && AllTracked(s) && Enabled(s, a)
    ensures var e := EffectOf(s, a);
            && !e.RemoveProgram? && (e.Untrack? ==> e.key !in s.reg.programs && WorksOn(s.threads[a.t], e.key) && s.threads[a.t].kind.Absent?)
            && (e.Wire? ==> e.key in s.reg.ops && e.key in s.reg.programs)
            && (e.AddProgram? ==> Busy(s, a.t) && s.threads[a.t].kind.Present?) && (e.Track? ==> a.Publish?)
            && (e.Untrack? ==> Busy(s, a.t))
  {
    assert PcTracked(s.reg, s.threads[a.t]);
  }

  lemma WiredStaysTracked(s: State, a: Step)
    requires Inv(s) && AllTracked(s) && Enabled(s, a)
    ensures forall k :: k in Apply(s, a).reg.wired ==> k in Apply(s, a).reg.ops && k in Apply(s, a).reg.programs
  {
    TrackedEffect(s, a);
    assert Apply(s, a).reg == Perform(s.reg, EffectOf(s, a));
  }

  /** An effect that does not concern the NF of a goroutine, or only in a harmless way. */
  lemma HarmlessEffect(reg: Registry, e: Effect, pc: Pc)
    requires PcTracked(reg, pc) && !e.RemoveProgram?
    requires e.Untrack? && WorksOn(pc, e.key) ==> pc.kind.Absent?
    requires e.Track? && WorksOn(pc, e.key) ==> e.kind.Absent?
    requires e.AddProgram? ==> !pc.Running?
    ensures PcTracked(Perform(reg, e), pc)
  {
  }

  /** What somebody else does to the NF of a goroutine. */
  lemma OthersEffect(s: State, a: Step, t: nat)
    requires Inv(s) && AllTracked(s) && Enabled(s, a) && Orderly(s, a) && t in s.threads && t != a.t
    ensures var e, pc := EffectOf(s, a), s.threads[t];
            && (e.Untrack? && WorksOn(pc, e.key) ==> pc.kind.Absent?)
            && (e.Track? && WorksOn(pc, e.key) ==> e.kind.Absent?)
            && (e.AddProgram? ==> !pc.Running?)
  {
    var e, pc := EffectOf(s, a), s.threads[t];
    assert ThreadOk(s, t) && ThreadOk(s, a.t);
    TrackedEffect(s, a);
    assert Alone(s.threads, t);
  }

  /** A thread other than the acting one. */
  lemma BystanderTracked(s: State, a: Step, t: nat)
    requires Inv(s) && AllTracked(s) && Enabled(s, a) && Orderly(s, a) && t in s.threads && t != a.t
    ensures PcTracked(Perform(s.reg, EffectOf(s, a)), s.threads[t])
  {
    TrackedEffect(s, a);
    OthersEffect(s, a, t);
    HarmlessEffect(s.reg, EffectOf(s, a), s.threads[t]);
  }

  /** A goroutine under the lock: the next stage fits what the stage did. */
  lemma StageStaysTracked(reg: Registry, slots: int, pc: Pc, ok: bool, v: Key)
    requires pc.Running? && PcTracked(reg, pc) && !pc.stage.Unlock?
    ensures PcTracked(Perform(reg, WorkerEffect(pc, ok)), pc.(stage := NextStage(reg, slots, pc, ok, v)))
  {
  }

  /** The acting thread, and a goroutine that it starts. */
  lemma ActorTracked(s: State, a: Step)
    requires Inv(s) && AllTracked(s) && Enabled(s, a)
    ensures PcTracked(Perform(s.reg, EffectOf(s, a)), PcAfter(s, a))
  {
    var pc := s.threads[a.t];
    assert PcTracked(s.reg, pc);
    if a.Advance? && pc.Running? && !pc.stage.Unlock? {
      StageStaysTracked(s.reg, s.slots, pc, a.ok, a.k);
    }
  }

  lemma AloneStays(s: State, a: Step, t: nat)
    requires AllTracked(s) && Enabled(s, a) && Orderly(s, a) && t in Apply(s, a).threads
    ensures Alone(Apply(s, a).threads, t)
  {
    var now := Apply(s, a).threads;
    if t in s.threads { assert Alone(s.threads, t); }
    assert forall t' :: t' in s.threads && !a.Publish? && t' != a.t ==> now[t'] == s.threads[t'];
    assert !a.Publish? ==> forall k :: WorksOn(PcAfter(s, a), k) ==> WorksOn(s.threads[a.t], k);
  }

  lemma TrackedStep(s: State, a: Step)
    requires Inv(s) && AllTracked(s) && Enabled(s, a) && Orderly(s, a)
    ensures AllTracked(Apply(s, a))
  {
    var s' := Apply(s, a);
    WiredStaysTracked(s, a);
    forall t | t in s'.threads ensures PcTracked(s'.reg, s'.threads[t]) && Alone(s'.threads, t) {
      AloneStays(s, a, t);
      if t == a.t {
        ActorTracked(s, a);
      } else if t in s.threads {
        BystanderTracked(s, a, t);
      }
    }
  }

  ghost predicate OrderlyRun(states: seq<State>, steps: seq<Step>) {
    |states| == |steps| + 1 && forall j {:trigger steps[j]} :: 0 <= j < |steps| ==> Orderly(states[j], steps[j])
  }

  lemma {:induction false} AllTrackedRun(states: seq<State>, steps: seq<Step>, i: nat)
    requires Trace(states, steps) && Init(states[0]) && OrderlyRun(states, steps) && i < |states|
    ensures AllTracked(states[i])
  {
    if i > 0 {
      var s, a := states[i - 1], steps[i - 1];
      AllTrackedRun(states, steps, i - 1);
      assert Inv(s) by { InvRun(states, steps, i - 1); }
      TrackedStep(s, a);
      assert states[i] == Apply(s, a);
    }
  }

  /** In every run that replaces operations in order, every NF that is wired is tracked, and has its program. */
  lemma OrderlyNeverLeaks(states: seq<State>, steps: seq<Step>, i: nat)
    requires Trace(states, steps) && Init(states[0]) && OrderlyRun(states, steps) && i < |states|
    ensures forall k :: k in states[i].reg.wired ==> k in states[i].reg.ops && k in states[i].reg.programs
  {
    AllTrackedRun(states, steps, i);
  }

  // ---------------------------------------------------------------------------------------
  // A run that leaks
  // ---------------------------------------------------------------------------------------

  /** The lock is free, and nobody is doing anything. */
  ghost predicate Rests(s: State) {
    s.mu == None && forall t :: t in s.threads ==> s.threads[t] == Idle
  }

  /** The end of a goroutine. */
  lemma Unlocked(start: State, s: State, w: nat, k: Key, h: nat, kind: Kind, reg: Registry)
    requires Reaches(start, At(s, w, k, h, kind, reg, Unlock))
    ensures Reaches(start, State(reg, s.threads[w := Idle], None, s.slots))
  {
    var last := At(s, w, k, h, kind, reg, Unlock);
    assert Apply(last, Advance(w, true, k)).threads == s.threads[w := Idle];
    ReachesStep(start, last, Advance(w, true, k), State(reg, s.threads[w := Idle], None, s.slots));
  }

  /** The start of a goroutine. */
  lemma Acquired(start: State, s: State, w: nat, k: Key, h: nat, kind: Kind)
    requires Reaches(start, s) && s.mu == None && w in s.threads && s.threads[w] == Waiting(k, h, kind)
    ensures Reaches(start, At(s, w, k, h, kind, s.reg, Enter(if kind.Present? then Compiling else Draining)))
  {
    ReachesStep(start, s, Acquire(w), At(s, w, k, h, kind, s.reg, Enter(if kind.Present? then Compiling else Draining)));
  }

  /** The state after a caller has cancelled handle `c`, which was pending. */
  function CanceledAt(s: State, k: Key, c: nat): State {
    s.(reg := s.reg.(handles := s.reg.handles[c := Handle(k, Canceled, true, 1, 1)]))
  }

  /** An operation of the other kind replaces one that is still pending. */
  lemma EnsuredOverPending(start: State, s: State, t: nat, k: Key, kind: Kind, h: nat, w: nat)
    requires Reaches(start, s) && t in s.threads && s.threads[t] == Idle && h !in s.reg.handles && w !in s.threads
    requires k in s.reg.ops && s.reg.ops[k].kind != kind && s.reg.ops[k].handle in s.reg.handles
    requires s.reg.handles[s.reg.ops[k].handle] == Handle(k, Pending, false, 0, 0)
    ensures Reaches(start, Published(CanceledAt(s, k, s.reg.ops[k].handle), k, kind, h, w))
  {
    var c := s.reg.ops[k].handle;
    var canceled := CanceledAt(s, k, c);
    var half := s.(reg := s.reg.(handles := s.reg.handles[c := Handle(k, Canceled, false, 0, 0)]));
    var s1 := s.(threads := s.threads[t := Canceling(c, Some((k, kind)))]);
    var s2 := half.(threads := s.threads[t := Finishing(c, Some((k, kind)))]);
    var s3 := canceled.(threads := s.threads[t := Publishing(k, kind)]);
    ReachesStep(start, s, Ensure(t, k, kind), s1);
    assert Apply(s1, Advance(t, true, k)) == s2 by {
      assert Apply(s1, Advance(t, true, k)).threads == s2.threads;
    }
    ReachesStep(start, s1, Advance(t, true, k), s2);
    assert Apply(s2, Advance(t, true, k)) == s3 by {
      assert Apply(s2, Advance(t, true, k)).threads == s3.threads;
      assert Apply(s2, Advance(t, true, k)).reg.handles == canceled.reg.handles;
    }
    ReachesStep(start, s2, Advance(t, true, k), s3);
    PublishedFrom(start, canceled, t, k, kind, h, w);
  }

  lemma PublishedFrom(start: State, s: State, t: nat, k: Key, kind: Kind, h: nat, w: nat)
    requires t in s.threads && s.threads[t] == Idle && h !in s.reg.handles && w !in s.threads
    requires Reaches(start, s.(threads := s.threads[t := Publishing(k, kind)]))
    ensures Reaches(start, Published(s, k, kind, h, w))
  {
    var asked := s.(threads := s.threads[t := Publishing(k, kind)]);
    assert Apply(asked, Publish(t, h, w)).threads == Published(s, k, kind, h, w).threads;
    ReachesStep(start, asked, Publish(t, h, w), Published(s, k, kind, h, w));
  }

  /** A deletion that meets a deployment not yet ready drops it and its program, and tears nothing down. */
  lemma DeletionDrops(start: State, s: State, w: nat, k: Key, h: nat, reg: Registry)
    requires Reaches(start, At(s, w, k, h, Absent, reg, Enter(Draining))) && AtRest(reg, h) && k in reg.ops && k in reg.programs
    requires reg.ops[k].kind.Present? && !PhaseIs(reg, reg.ops[k].handle, Ready)
    ensures Reaches(start, At(s, w, k, h, Absent, reg.(ops := reg.ops - {k}, programs := reg.programs - {k}), Unlock))
  {
    var dropped := reg.(ops := reg.ops - {k});
    var gone := dropped.(programs := reg.programs - {k});
    assert forall p :: Perform(reg, SetPhase(h, p)) == reg;
    Work(start, s, w, k, h, Absent, true, reg, Enter(Draining), k, reg, Drain);
    Work(start, s, w, k, h, Absent, true, reg, Drain, k, reg, Enter(Deleting));
    Work(start, s, w, k, h, Absent, true, reg, Enter(Deleting), k, reg, Lookup);
    Work(start, s, w, k, h, Absent, true, reg, Lookup, k, reg, Decide(reg.ops[k]));
    DropAll(start, s, w, k, h, reg);
  }

  lemma DropAll(start: State, s: State, w: nat, k: Key, h: nat, reg: Registry)
    requires k in reg.ops && k in reg.programs && AtRest(reg, h)
    requires Reaches(start, At(s, w, k, h, Absent, reg, Decide(reg.ops[k])))
    requires reg.ops[k].kind.Present? && !PhaseIs(reg, reg.ops[k].handle, Ready)
    ensures Reaches(start, At(s, w, k, h, Absent, reg.(ops := reg.ops - {k}, programs := reg.programs - {k}), Unlock))
  {
    var dropped := reg.(ops := reg.ops - {k});
    var gone := dropped.(programs := reg.programs - {k});
    Work(start, s, w, k, h, Absent, true, reg, Decide(reg.ops[k]), k, reg, DropOp(true));
    Work(start, s, w, k, h, Absent, true, reg, DropOp(true), k, dropped, DropProgram);
    Work(start, s, w, k, h, Absent, true, dropped, DropProgram, k, gone, End(Deleted));
    assert Perform(gone, SetPhase(h, Deleted)) == gone;
    Work(start, s, w, k, h, Absent, true, gone, End(Deleted), k, gone, Unlock);
  }

  /** A deployment whose compilation fails. */
  lemma DeploymentFails(start: State, s: State, w: nat, k: Key, h: nat, reg: Registry)
    requires Reaches(start, At(s, w, k, h, Present, Phased(reg, k, h, Pending), Enter(Compiling)))
    ensures Reaches(start, At(s, w, k, h, Present, reg.(handles := reg.handles[h := Handle(k, Failed, true, 1, 1)]), Unlock))
  {
    var compiling := Phased(reg, k, h, Compiling);
    Report(start, s, w, k, h, reg, Pending, Compiling);
    Work(start, s, w, k, h, Present, false, compiling, Compile, k, compiling, End(Failed));
    ReportEnd(start, s, w, k, h, reg, Compiling, Failed);
  }

  /** The pending deletion runs, then the pending deployment fails: what is left of `k` is its forwarding. */
  lemma DeletionThenFailure(start: State, s: State, k: Key, h: nat, w: nat, h': nat, w': nat) returns (end: State)
    requires Reaches(start, s) && s.mu == None && w != w' && h != h' && w in s.threads && w' in s.threads
    requires s.threads[w] == Waiting(k, h, Absent) && s.threads[w'] == Waiting(k, h', Present)
    requires AtRest(s.reg, h) && k in s.reg.ops && k in s.reg.programs && s.reg.ops[k] == Op(h', Present)
    requires h' in s.reg.handles && s.reg.handles[h'] == Handle(k, Pending, false, 0, 0)
    ensures Reaches(start, end) && end.mu == None && end.threads == s.threads[w := Idle][w' := Idle]
    ensures end.reg.wired == s.reg.wired && k !in end.reg.ops
  {
    var gone := s.reg.(ops := s.reg.ops - {k}, programs := s.reg.programs - {k});
    Acquired(start, s, w, k, h, Absent);
    DeletionDrops(start, s, w, k, h, s.reg);
    Unlocked(start, s, w, k, h, Absent, gone);
    var s1 := State(gone, s.threads[w := Idle], None, s.slots);
    Acquired(start, s1, w', k, h', Present);
    assert gone == Phased(gone, k, h', Pending);
    DeploymentFails(start, s1, w', k, h', gone);
    var closed := gone.(handles := gone.handles[h' := Handle(k, Failed, true, 1, 1)]);
    Unlocked(start, s1, w', k, h', Present, closed);
    end := State(closed, s1.threads[w' := Idle], None, s.slots);
  }

  /**
   An NF is deployed, marked absent, and marked present again before its deletion gets the lock;
   the deletion then takes the new deployment for one that never got ready and drops it, and the
   deployment fails. In the end nobody is doing anything, and the NF is wired but not tracked.
   */
  lemma LeakingRun(s: State, t: nat) returns (end: State, k: Key)
    requires Init(s) && t in s.threads && s.slots > 0
    ensures Reaches(s, end) && Rests(end) && k in end.reg.wired && k !in end.reg.ops
  {
    ReachesSelf(s);
    k := Key("", "");
    var h := UnusedNumber(s.reg.handles.Keys);
    var w := UnusedNumber(s.threads.Keys);
    var q := DeployOne(s, s, t, k, h, w);
    var h1 := UnusedNumber(q.reg.handles.Keys);
    var w1 := UnusedNumber(q.threads.Keys);
    Ensured(s, q, t, k, Absent, h1, w1);
    var p := Published(q, k, Absent, h1, w1);
    var h2 := UnusedNumber(p.reg.handles.Keys);
    var w2 := UnusedNumber(p.threads.Keys);
    EnsuredOverPending(s, p, t, k, Present, h2, w2);
    var r := Published(CanceledAt(p, k, h1), k, Present, h2, w2);
    end := DeletionThenFailure(s, r, k, h1, w1, h2, w2);
  }

  /** At rest, nothing that is wired is untracked: this holds of every run from a start with a caller exactly if there are no slots. */
  lemma NothingLeaksIff(s: State, t: nat)
    requires Init(s) && t in s.threads
    ensures (forall states: seq<State>, steps: seq<Step>, i: nat ::
               Trace(states, steps) && states[0] == s && i < |states| && Rests(states[i]) ==> states[i].reg.wired <= states[i].reg.ops.Keys)
            <==> s.slots <= 0
  {
    if s.slots <= 0 {
      forall states: seq<State>, steps: seq<Step>, i: nat | Trace(states, steps) && states[0] == s && i < |states| && Rests(states[i])
        ensures states[i].reg.wired <= states[i].reg.ops.Keys
      {
        NothingWired(states, steps, i);
      }
    } else {
      var end, k := LeakingRun(s, t);
      var states: seq<State>, steps: seq<Step> :| Trace(states, steps) && states[0] == s && states[|steps|] == end;
      assert Rests(states[|steps|]) && k in states[|steps|].reg.wired && k !in states[|steps|].reg.ops.Keys;
    }
  }
}

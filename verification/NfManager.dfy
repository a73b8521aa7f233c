/**
 The network-function manager of the BMv2 target.

 EnsurePresent and EnsureAbsent replace the tracked operation of an NF without taking the
 manager's lock; the deployment and deletion goroutines they start run under it.  Each tracked
 operation has a handle: a phase machine with absorbing terminal phases and a `done` channel.
 */
module NfManager {
  import opened Basics

  // ---------------------------------------------------------------------------------------
  // One deployment handle
  // ---------------------------------------------------------------------------------------

  datatype Phase =
    | Pending
    | Compiling | PreCheck | Deploying | NetworkSetup | Ready
    | Draining | Deleting | Deleted
    | Failed | Canceled

  predicate IsTerminal(p: Phase) {
    p.Ready? || p.Failed? || p.Canceled? || p.Deleted?
  }

  /** The name of a NetworkFunction object. */
  datatype Key = Key(namespace: string, name: string)

  /** `once` is the sync.Once of finish(); `closes` and `eventCloses` count the closings of the done and the events channel. */
  datatype Handle = Handle(key: Key, phase: Phase, once: bool, closes: nat, eventCloses: nat)

  function Transitioned(h: Handle, p: Phase): Handle {
    if IsTerminal(h.phase) then h else h.(phase := p)
  }

  function Finished(h: Handle): Handle {
    if h.once then h else h.(once := true, closes := h.closes + 1, eventCloses := h.eventCloses + 1)
  }

  /** Both channels are closed exactly when a terminal phase was reached, and then once. */
  ghost predicate Settled(h: Handle) {
    h.closes == h.eventCloses == (if IsTerminal(h.phase) then 1 else 0) && h.once == IsTerminal(h.phase)
  }

  class DeploymentHandle {
    const key: Key
    var phase: Phase
    var once: bool
    var closes: nat
    var eventCloses: nat

    function Model(): (h: Handle)
      reads this
    {
      Handle(key, phase, once, closes, eventCloses)
    }

    constructor (key: Key)
      ensures Model() == Handle(key, Pending, false, 0, 0) && Settled(Model())
    {
      this.key, phase, once, closes, eventCloses := key, Pending, false, 0, 0;
    }

    method Finish()
      modifies this
      ensures Model() == Finished(old(Model()))
    {
      if !once {
        once := true;
        closes := closes + 1;
        eventCloses := eventCloses + 1;
      }
    }

    /** Run alone, a transition keeps the handle settled and never leaves a terminal phase. */
    method Transition(p: Phase)
      modifies this
      ensures var h := old(Model());
              Model() == if !IsTerminal(h.phase) && IsTerminal(p) then Finished(Transitioned(h, p)) else Transitioned(h, p)
      ensures old(Settled(Model())) ==> Settled(Model())
    {
      if IsTerminal(phase) {
        return;
      }
      phase := p;
      if IsTerminal(p) {
        Finish();
      }
    }

    method Cancel()
      modifies this
      ensures phase == if old(IsTerminal(phase)) then old(phase) else Canceled
      ensures old(Settled(Model())) ==> Settled(Model()) && closes == 1
    {
      Transition(Canceled);
    }
  }

  // ---------------------------------------------------------------------------------------
  // The manager, as atomic steps of callers and goroutines
  // ---------------------------------------------------------------------------------------

  datatype Kind = Present | Absent

  datatype Op = Op(handle: nat, kind: Kind)

  /** What a goroutine holding the lock does next. */
  datatype Stage =
    | Enter(p: Phase)                        // report a non-terminal phase
    | Compile
    | Check(todo: set<Key>, deployed: nat)   // preCheck's loop over the tracked operations
    | Deploy
    | Setup
    | Drain
    | Lookup                                 // deleteResources: read the tracked operation
    | Decide(op: Op)                         //   read the program and the operation's phase
    | DropOp(alsoProgram: bool)
    | DropProgram
    | Teardown
    | Reset
    | End(p: Phase)                          // report a terminal phase
    | Close                                  // that took effect: finish() is due
    | Unlock

  datatype Pc =
    | Idle
    | Canceling(h: nat, next: Option<(Key, Kind)>)   // inside Cancel, before its transition
    | Finishing(h: nat, next: Option<(Key, Kind)>)   // the transition took effect: finish() is due
    | Publishing(key: Key, kind: Kind)               // about to replace the tracked operation
    | Waiting(key: Key, h: nat, kind: Kind)          // a goroutine that waits for the lock
    | Running(key: Key, h: nat, kind: Kind, stage: Stage)

  /** `wired` are the NFs whose network forwarding is set up. */
  datatype Registry = Registry(ops: map<Key, Op>, handles: map<nat, Handle>, programs: set<Key>, wired: set<Key>)

  datatype State = State(reg: Registry, threads: map<nat, Pc>, mu: Option<nat>, slots: int)

  datatype Step =
    | Ensure(t: nat, key: Key, kind: Kind)   // the lookup of EnsurePresent or EnsureAbsent
    | Cancel(t: nat, h: nat)                 // somebody calls Cancel on a handle
    | Publish(t: nat, h: nat, worker: nat)   // store a fresh operation and start its goroutine
    | Acquire(t: nat)
    | Advance(t: nat, ok: bool, k: Key)      // one step of thread t; `ok`: its call succeeds
    | Panic(t: nat)

  predicate Busy(s: State, t: nat) { t in s.threads && s.threads[t].Running? }

  predicate Enabled(s: State, a: Step) {
    match a
    case Ensure(t, key, kind) => t in s.threads && s.threads[t].Idle?
    case Cancel(t, h) => t in s.threads && s.threads[t].Idle? && h in s.reg.handles
    case Publish(t, h, worker) =>
      t in s.threads && s.threads[t].Publishing? && h !in s.reg.handles && worker !in s.threads
    case Acquire(t) => t in s.threads && s.threads[t].Waiting? && s.mu.None?
    case Advance(t, ok, k) =>
      && t in s.threads
      && (s.threads[t].Canceling? || s.threads[t].Finishing? || s.threads[t].Running?)
      && (s.threads[t].Running? && s.threads[t].stage.Check? && s.threads[t].stage.todo != {} ==>
            k in s.threads[t].stage.todo)
    case Panic(t) => Busy(s, t) && !s.threads[t].stage.Close? && !s.threads[t].stage.Unlock?
  }

  /** The effect of a step on the shared maps and handles. */
  datatype Effect =
    | Nothing
    | SetPhase(h: nat, p: Phase)
    | CloseDone(h: nat)
    | Track(key: Key, kind: Kind, h: nat)
    | Untrack(key: Key)
    | AddProgram(key: Key)
    | RemoveProgram(key: Key)
    | Wire(key: Key)
    | Unwire(key: Key)

  function Perform(r: Registry, e: Effect): Registry {
    match e
    case Nothing => r
    case SetPhase(h, p) => if h in r.handles then r.(handles := r.handles[h := Transitioned(r.handles[h], p)]) else r
    case CloseDone(h) => if h in r.handles then r.(handles := r.handles[h := Finished(r.handles[h])]) else r
    case Track(key, kind, h) =>
      r.(ops := r.ops[key := Op(h, kind)], handles := r.handles[h := Handle(key, Pending, false, 0, 0)])
    case Untrack(key) => r.(ops := r.ops - {key})
    case AddProgram(key) => r.(programs := r.programs + {key})
    case RemoveProgram(key) => r.(programs := r.programs - {key})
    case Wire(key) => r.(wired := r.wired + {key})
    case Unwire(key) => r.(wired := r.wired - {key})
  }

  predicate PhaseIs(r: Registry, h: nat, p: Phase) {
    h in r.handles && r.handles[h].phase == p
  }

  predicate AtRest(r: Registry, h: nat) {
    h in r.handles && IsTerminal(r.handles[h].phase)
  }

  /** A tracked Present operation in phase Ready: what occupies a slot. */
  predicate ReadyOp(r: Registry, k: Key) {
    k in r.ops && r.ops[k].kind.Present? && PhaseIs(r, r.ops[k].handle, Ready)
  }

  /** The effect of one step of a goroutine; a call that fails has none. */
  function WorkerEffect(pc: Pc, ok: bool): Effect
    requires pc.Running?
  {
    match pc.stage
    case Enter(p) => SetPhase(pc.h, p)
    case Compile => if ok then AddProgram(pc.key) else Nothing
    case Setup => if ok then Wire(pc.key) else Nothing
    case Teardown => if ok then Unwire(pc.key) else Nothing
    case DropOp(also) => Untrack(pc.key)
    case DropProgram => RemoveProgram(pc.key)
    case End(p) => SetPhase(pc.h, p)
    case Close => CloseDone(pc.h)
    case _ => Nothing
  }

  /** The stage after a non-terminal phase has been reported. */
  function StageOf(r: Registry, p: Phase): Stage {
    match p
    case Compiling => Compile
    case PreCheck => Check(r.ops.Keys, 0)
    case Deploying => Deploy
    case NetworkSetup => Setup
    case Draining => Drain
    case _ => Lookup
  }

  function NextStage(r: Registry, slots: int, pc: Pc, ok: bool, k: Key): Stage
    requires pc.Running?
  {
    match pc.stage
    case Enter(p) => StageOf(r, p)
    case Compile => if ok then Enter(PreCheck) else End(Failed)
    case Check(todo, deployed) =>
      if todo != {} then Check(todo - {k}, if k in todo && ReadyOp(r, k) then deployed + 1 else deployed)
      else if slots - deployed <= 0 then End(Failed) else Enter(Deploying)
    case Deploy => if ok then Enter(NetworkSetup) else End(Failed)
    case Setup => if ok then End(Ready) else End(Failed)
    case Drain => Enter(Deleting)
    case Lookup => if pc.key in r.ops then Decide(r.ops[pc.key]) else End(Deleted)
    case Decide(op) =>
      if pc.key !in r.programs then DropOp(false)
      else if op.kind.Present? && !PhaseIs(r, op.handle, Ready) then DropOp(true)
      else Teardown
    case DropOp(also) => if also then DropProgram else End(Deleted)
    case DropProgram => End(Deleted)
    case Teardown => if ok then Reset else End(Failed)
    case Reset => if ok then End(Deleted) else End(Failed)
    case End(p) => if AtRest(r, pc.h) then Unlock else Close
    case Close => Unlock
    case Unlock => Unlock
  }

  /** After Cancel: go on to replace the operation, or return to the caller. */
  function AfterCancel(next: Option<(Key, Kind)>): Pc {
    match next
    case None => Idle
    case Some(p) => Publishing(p.0, p.1)
  }

  function EffectOf(s: State, a: Step): Effect
    requires Enabled(s, a)
  {
    match a
    case Publish(t, h, worker) => Track(s.threads[t].key, s.threads[t].kind, h)
    case Advance(t, ok, k) =>
      var pc := s.threads[t];
      if pc.Canceling? then SetPhase(pc.h, Canceled)
      else if pc.Finishing? then CloseDone(pc.h)
      else if pc.Running? then WorkerEffect(pc, ok)
      else Nothing
    case _ => Nothing
  }

  function PcAfter(s: State, a: Step): Pc
    requires Enabled(s, a)
  {
    match a
    case Ensure(t, key, kind) =>
      if key !in s.reg.ops then Publishing(key, kind)
      else if s.reg.ops[key].kind == kind then Idle   // returns the handle already tracked
      else Canceling(s.reg.ops[key].handle, Some((key, kind)))
    case Cancel(t, h) => Canceling(h, None)
    case Publish(t, h, worker) => Idle
    case Acquire(t) =>
      var pc := s.threads[t];
      Running(pc.key, pc.h, pc.kind, Enter(if pc.kind.Present? then Compiling else Draining))
    case Advance(t, ok, k) =>
      var pc := s.threads[t];
      if pc.Canceling? then (if AtRest(s.reg, pc.h) then AfterCancel(pc.next) else Finishing(pc.h, pc.next))
      else if pc.Finishing? then AfterCancel(pc.next)
      else if pc.Running? && !pc.stage.Unlock? then pc.(stage := NextStage(s.reg, s.slots, pc, ok, k))
      else Idle
    case Panic(t) => if s.threads[t].Running? then s.threads[t].(stage := End(Failed)) else Idle
  }

  function Apply(s: State, a: Step): State
    requires Enabled(s, a)
  {
    var threads := s.threads[a.t := PcAfter(s, a)];
    State(
      Perform(s.reg, EffectOf(s, a)),
      if a.Publish? then threads[a.worker := Waiting(s.threads[a.t].key, a.h, s.threads[a.t].kind)] else threads,
      if a.Acquire? then Some(a.t)
      else if Busy(s, a.t) && !PcAfter(s, a).Running? then None
      else s.mu,
      s.slots)
  }

  ghost predicate Trace(states: seq<State>, steps: seq<Step>) {
    && |states| == |steps| + 1
    && forall i {:trigger steps[i]} :: 0 <= i < |steps| ==>
         Enabled(states[i], steps[i]) && states[i + 1] == Apply(states[i], steps[i])
  }

  ghost predicate Init(s: State) {
    s.reg == Registry(map[], map[], {}, {}) && s.mu.None? && forall t :: t in s.threads ==> s.threads[t].Idle?
  }

  // ---------------------------------------------------------------------------------------
  // Effects on the shared maps
  // ---------------------------------------------------------------------------------------

  ghost function ReadyKeys(r: Registry): set<Key> {
    set k | k in r.ops && ReadyOp(r, k)
  }

  /** Every tracked handle was made for the key it is tracked under. */
  ghost predicate RegistryOk(r: Registry) {
    forall k :: k in r.ops ==> r.ops[k].handle in r.handles && r.handles[r.ops[k].handle].key == k
  }

  ghost predicate Fresh(r: Registry, e: Effect) {
    e.Track? ==> e.h !in r.handles
  }

  lemma PerformOk(r: Registry, e: Effect)
    requires RegistryOk(r) && Fresh(r, e)
    ensures RegistryOk(Perform(r, e))
    ensures forall h :: h in r.handles ==> h in Perform(r, e).handles && Perform(r, e).handles[h].key == r.handles[h].key
    ensures forall h :: AtRest(r, h) ==> AtRest(Perform(r, e), h) && Perform(r, e).handles[h].phase == r.handles[h].phase
  {
  }

  /** No effect occupies a slot, except that a handle that becomes Ready may occupy the slot of its key. */
  lemma PerformReady(r: Registry, e: Effect)
    requires RegistryOk(r) && Fresh(r, e)
    ensures !(e.SetPhase? && e.p.Ready?) ==> ReadyKeys(Perform(r, e)) <= ReadyKeys(r)
    ensures e.SetPhase? && e.h in r.handles ==> ReadyKeys(Perform(r, e)) <= ReadyKeys(r) + {r.handles[e.h].key}
  {
  }

  // ---------------------------------------------------------------------------------------
  // What holds in every reachable state
  // ---------------------------------------------------------------------------------------

  /** The stages between a successful pre-check and the report of Ready. */
  predicate Cleared(g: Stage) {
    match g
    case Enter(p) => p.Deploying? || p.NetworkSetup?
    case Deploy => true
    case Setup => true
    case End(p) => p.Ready?
    case _ => false
  }

  /** `ready` are the keys that occupy a slot. */
  ghost predicate StageOk(ready: set<Key>, slots: int, g: Stage) {
    && (g.Enter? ==> !IsTerminal(g.p))
    && (g.End? ==> IsTerminal(g.p))
    && (g.Check? ==> |ready - g.todo| <= g.deployed)
    && (Cleared(g) ==> |ready| < slots)
  }

  /** The stages of a deployment, and of a deletion. */
  predicate StageFits(kind: Kind, g: Stage) {
    match g
    case Enter(p) => if kind.Present? then p.Compiling? || p.PreCheck? || p.Deploying? || p.NetworkSetup? else p.Draining? || p.Deleting?
    case Compile => kind.Present?
    case Check(_, _) => kind.Present?
    case Deploy => kind.Present?
    case Setup => kind.Present?
    case End(_) => true
    case Close => true
    case Unlock => true
    case _ => kind.Absent?
  }

  /** A thread works on an existing handle, made for its key; what it still has to finish is terminal. */
  ghost predicate PcOk(r: Registry, pc: Pc) {
    && (pc.Canceling? || pc.Finishing? || pc.Waiting? || pc.Running? ==> pc.h in r.handles)
    && (pc.Waiting? || pc.Running? ==> r.handles[pc.h].key == pc.key)
    && (forall h :: Owes(pc, h) ==> AtRest(r, h))
  }

  ghost predicate ThreadOk(s: State, t: nat)
    requires t in s.threads
  {
    var pc := s.threads[t];
    && PcOk(s.reg, pc)
    && (pc.Running? ==> s.mu == Some(t) && StageOk(ReadyKeys(s.reg), s.slots, pc.stage))
  }

  /** The thread has put handle `h` in a terminal phase and still has to finish it. */
  predicate Owes(pc: Pc, h: nat) {
    (pc.Finishing? || (pc.Running? && pc.stage.Close?)) && pc.h == h
  }

  ghost predicate HandleOk(s: State, h: nat)
    requires h in s.reg.handles
  {
    var d := s.reg.handles[h];
    && d.closes == d.eventCloses == (if d.once then 1 else 0)
    && (d.once ==> IsTerminal(d.phase))
    && (IsTerminal(d.phase) && !d.once ==> exists t :: t in s.threads && Owes(s.threads[t], h))
  }

  ghost predicate SlotsRespected(s: State) {
    |ReadyKeys(s.reg)| <= if s.slots > 0 then s.slots else 0
  }

  ghost predicate Inv(s: State) {
    && RegistryOk(s.reg)
    && (forall t :: t in s.threads ==> ThreadOk(s, t))
    && (forall h :: h in s.reg.handles ==> HandleOk(s, h))
    && SlotsRespected(s)
  }

  /** Ready is reported only by a goroutine that has just been cleared by the pre-check. */
  lemma EffectOk(s: State, a: Step)
    requires Inv(s) && Enabled(s, a)
    ensures Fresh(s.reg, EffectOf(s, a))
    ensures EffectOf(s, a).SetPhase? && EffectOf(s, a).p.Ready? ==>
              a.Advance? && s.threads[a.t].Running? && s.threads[a.t].stage.End? && s.threads[a.t].stage.p.Ready?
  {
    assert a.t in s.threads ==> ThreadOk(s, a.t);
  }

  lemma SlotsStep(s: State, a: Step)
    requires Inv(s) && Enabled(s, a)
    ensures SlotsRespected(Apply(s, a))
  {
    var e := EffectOf(s, a);
    var ready, ready' := ReadyKeys(s.reg), ReadyKeys(Perform(s.reg, e));
    EffectOk(s, a);
    PerformReady(s.reg, e);
    if e.SetPhase? && e.p.Ready? {
      assert ThreadOk(s, a.t);
      assert |ready| < s.slots;
      SubsetSize(ready', ready + {s.reg.handles[e.h].key});
    } else {
      SubsetSize(ready', ready);
    }
    assert Apply(s, a).reg == Perform(s.reg, e);
  }

  /** Fewer occupied slots never invalidate a count or a clearance. */
  lemma StageShrink(ready: set<Key>, ready': set<Key>, slots: int, g: Stage)
    requires StageOk(ready, slots, g) && ready' <= ready
    ensures StageOk(ready', slots, g)
  {
    SubsetSize(ready', ready);
    if g.Check? { SubsetSize(ready' - g.todo, ready - g.todo); }
  }

  /** The pre-check loop counts every occupied slot that it has passed. */
  lemma VisitCounts(ready: set<Key>, todo: set<Key>, deployed: nat, k: Key)
    requires k in todo && |ready - todo| <= deployed
    ensures |ready - (todo - {k})| <= if k in ready then deployed + 1 else deployed
  {
    if k in ready {
      assert ready - (todo - {k}) == (ready - todo) + {k};
    } else {
      assert ready - (todo - {k}) == ready - todo;
    }
  }

  /** Outside the pre-check, a stage is cleared only if the one before it was. */
  lemma NextStageControl(r: Registry, slots: int, pc: Pc, ok: bool, k: Key)
    requires pc.Running? && !pc.stage.Check?
    requires (pc.stage.Enter? ==> !IsTerminal(pc.stage.p)) && (pc.stage.End? ==> IsTerminal(pc.stage.p))
    ensures var g := NextStage(r, slots, pc, ok, k);
            && (g.Enter? ==> !IsTerminal(g.p)) && (g.End? ==> IsTerminal(g.p))
            && (g.Check? ==> g == Check(r.ops.Keys, 0))
            && (Cleared(g) ==> Cleared(pc.stage))
  {
  }

  lemma NextStageOk(r: Registry, ready: set<Key>, slots: int, pc: Pc, ok: bool, k: Key)
    requires pc.Running? && StageOk(ready, slots, pc.stage)
    requires ready <= r.ops.Keys && (k in ready <==> ReadyOp(r, k))
    requires pc.stage.Check? && pc.stage.todo != {} ==> k in pc.stage.todo
    ensures StageOk(ready, slots, NextStage(r, slots, pc, ok, k))
  {
    var g := pc.stage;
    if !g.Check? {
      NextStageControl(r, slots, pc, ok, k);
      assert ready - r.ops.Keys == {};
    } else if g.todo != {} {
      VisitCounts(ready, g.todo, g.deployed, k);
    } else {
      assert ready - g.todo == ready;
    }
  }

  lemma PcOkKept(r: Registry, e: Effect, pc: Pc)
    requires RegistryOk(r) && Fresh(r, e) && PcOk(r, pc)
    ensures PcOk(Perform(r, e), pc)
  {
    PerformOk(r, e);
  }

  /** A thread other than the acting one: the acting one does not hold the lock if this one does. */
  lemma BystanderStep(s: State, a: Step, t: nat)
    requires Inv(s) && Enabled(s, a) && t in s.threads && t != a.t
    ensures t in Apply(s, a).threads && Apply(s, a).threads[t] == s.threads[t] && ThreadOk(Apply(s, a), t)
  {
    var e, pc := EffectOf(s, a), s.threads[t];
    assert ThreadOk(s, t) && ThreadOk(s, a.t);
    EffectOk(s, a);
    PcOkKept(s.reg, e, pc);
    PerformReady(s.reg, e);
    if pc.Running? {
      StageShrink(ReadyKeys(s.reg), ReadyKeys(Perform(s.reg, e)), s.slots, pc.stage);
    }
  }

  /** A step under the lock: the effect of a stage makes the next one valid. */
  lemma GoroutinePc(r: Registry, slots: int, pc: Pc, ok: bool, k: Key, e: Effect)
    requires RegistryOk(r) && pc.Running? && PcOk(r, pc) && (pc.stage.End? ==> IsTerminal(pc.stage.p))
    requires e == WorkerEffect(pc, ok)
    ensures PcOk(Perform(r, e), pc.(stage := NextStage(r, slots, pc, ok, k)))
  {
    PerformOk(r, e);
    var g := NextStage(r, slots, pc, ok, k);
    if g.Close? {
      assert pc.stage.End? && !AtRest(r, pc.h);
    }
  }

  /** Only the report of Ready can occupy a slot. */
  lemma StageEffect(r: Registry, ready: set<Key>, slots: int, pc: Pc, ok: bool)
    requires RegistryOk(r) && pc.Running? && StageOk(ready, slots, pc.stage) && !(pc.stage.End? && pc.stage.p.Ready?)
    ensures ReadyKeys(Perform(r, WorkerEffect(pc, ok))) <= ReadyKeys(r)
  {
    assert !(WorkerEffect(pc, ok).SetPhase? && WorkerEffect(pc, ok).p.Ready?) && !WorkerEffect(pc, ok).Track?;
    PerformReady(r, WorkerEffect(pc, ok));
  }

  lemma AfterReady(r: Registry, ready: set<Key>, slots: int, pc: Pc, ok: bool, k: Key)
    requires pc.Running? && pc.stage.End?
    ensures StageOk(ready, slots, NextStage(r, slots, pc, ok, k))
  {
  }

  lemma GoroutineStage(r: Registry, slots: int, pc: Pc, ok: bool, k: Key, ready: set<Key>, ready': set<Key>)
    requires RegistryOk(r) && pc.Running? && ready == ReadyKeys(r) && StageOk(ready, slots, pc.stage)
    requires pc.stage.Check? && pc.stage.todo != {} ==> k in pc.stage.todo
    requires ready' == ReadyKeys(Perform(r, WorkerEffect(pc, ok)))
    ensures StageOk(ready', slots, NextStage(r, slots, pc, ok, k))
  {
    if pc.stage.End? {
      AfterReady(r, ready', slots, pc, ok, k);
    } else {
      StageEffect(r, ready, slots, pc, ok);
      NextStageOk(r, ready, slots, pc, ok, k);
      StageShrink(ready, ready', slots, NextStage(r, slots, pc, ok, k));
    }
  }

  /** A step of a caller, inside EnsurePresent, EnsureAbsent or Cancel. */
  lemma CallerStep(s: State, a: Step)
    requires RegistryOk(s.reg) && Enabled(s, a) && PcOk(s.reg, s.threads[a.t])
    requires !s.threads[a.t].Running? && !a.Acquire?
    ensures !PcAfter(s, a).Running? && PcOk(Perform(s.reg, EffectOf(s, a)), PcAfter(s, a))
  {
  }

  /** A goroutine takes the lock, or panics under it. */
  lemma LockStep(s: State, a: Step)
    requires Enabled(s, a) && PcOk(s.reg, s.threads[a.t]) && (a.Acquire? || a.Panic?)
    ensures EffectOf(s, a).Nothing? && PcOk(s.reg, PcAfter(s, a))
    ensures PcAfter(s, a).Running? && !PcAfter(s, a).stage.Check? && !Cleared(PcAfter(s, a).stage)
    ensures var g := PcAfter(s, a).stage;
            (g.Enter? ==> !IsTerminal(g.p)) && (g.End? ==> IsTerminal(g.p))
  {
  }

  lemma ActorStep(s: State, a: Step)
    requires Inv(s) && Enabled(s, a)
    ensures ThreadOk(Apply(s, a), a.t)
  {
    var pc := s.threads[a.t];
    assert ThreadOk(s, a.t);
    if a.Acquire? || a.Panic? {
      LockStep(s, a);
    } else if !pc.Running? {
      CallerStep(s, a);
    } else if !pc.stage.Unlock? {
      GoroutinePc(s.reg, s.slots, pc, a.ok, a.k, EffectOf(s, a));
      GoroutineStage(s.reg, s.slots, pc, a.ok, a.k, ReadyKeys(s.reg), ReadyKeys(Perform(s.reg, EffectOf(s, a))));
    }
  }

  lemma ThreadsStep(s: State, a: Step, t: nat)
    requires Inv(s) && Enabled(s, a) && t in Apply(s, a).threads
    ensures ThreadOk(Apply(s, a), t)
  {
    if t == a.t {
      ActorStep(s, a);
    } else if t in s.threads {
      BystanderStep(s, a, t);
    } else {
      assert a.Publish? && t == a.worker;
    }
  }

  /** What an effect does to one handle: it may become terminal, or be closed, or be new. */
  lemma HandleEffect(r: Registry, e: Effect, h: nat)
    requires Fresh(r, e) && h in Perform(r, e).handles
    ensures h !in r.handles ==> Perform(r, e).handles[h] == Handle(Perform(r, e).handles[h].key, Pending, false, 0, 0)
    ensures h in r.handles ==>
              var d := r.handles[h];
              Perform(r, e).handles[h] == (if e == CloseDone(h) then Finished(d)
                                           else if e.SetPhase? && e.h == h then Transitioned(d, e.p)
                                           else d)
  {
  }

  /** Who closes `done` was the one to reach the terminal phase; who reaches it has to close. */
  lemma DebtStep(s: State, a: Step)
    requires Enabled(s, a) && ThreadOk(s, a.t)
    ensures EffectOf(s, a).CloseDone? <==> exists h :: Owes(s.threads[a.t], h)
    ensures EffectOf(s, a).CloseDone? ==> Owes(s.threads[a.t], EffectOf(s, a).h)
    ensures var e := EffectOf(s, a);
            e.SetPhase? && IsTerminal(e.p) && !AtRest(s.reg, e.h) ==> Owes(PcAfter(s, a), e.h)
  {
    assert forall h, h' :: Owes(s.threads[a.t], h) && Owes(s.threads[a.t], h') ==> h == h';
    if EffectOf(s, a).CloseDone? { assert Owes(s.threads[a.t], EffectOf(s, a).h); }
  }

  /** A handle becomes terminal once, in the hands of one thread, which then owes the closing. */
  lemma HandleStep(s: State, a: Step, h: nat)
    requires Inv(s) && Enabled(s, a) && h in Apply(s, a).reg.handles
    ensures HandleOk(Apply(s, a), h)
  {
    var e, s' := EffectOf(s, a), Apply(s, a);
    assert ThreadOk(s, a.t);
    EffectOk(s, a);
    HandleEffect(s.reg, e, h);
    DebtStep(s, a);
    if h in s.reg.handles {
      assert HandleOk(s, h);
      if IsTerminal(s'.reg.handles[h].phase) && !s'.reg.handles[h].once {
        if AtRest(s.reg, h) {
          var t :| t in s.threads && Owes(s.threads[t], h);
          assert t in s'.threads && Owes(s'.threads[t], h);
        } else {
          assert Owes(s'.threads[a.t], h);
        }
      }
    }
  }

  lemma InvStep(s: State, a: Step)
    requires Inv(s) && Enabled(s, a)
    ensures Inv(Apply(s, a))
  {
    EffectOk(s, a);
    PerformOk(s.reg, EffectOf(s, a));
    SlotsStep(s, a);
    forall t | t in Apply(s, a).threads ensures ThreadOk(Apply(s, a), t) { ThreadsStep(s, a, t); }
    forall h | h in Apply(s, a).reg.handles ensures HandleOk(Apply(s, a), h) { HandleStep(s, a, h); }
  }

  lemma {:induction false} InvRun(states: seq<State>, steps: seq<Step>, i: nat)
    requires Trace(states, steps) && Init(states[0]) && i < |states|
    ensures Inv(states[i])
  {
    if i == 0 {
      assert ReadyKeys(states[0].reg) == {};
    } else {
      InvRun(states, steps, i - 1);
      InvStep(states[i - 1], steps[i - 1]);
    }
  }

  // ---------------------------------------------------------------------------------------
  // The main results
  // ---------------------------------------------------------------------------------------

  /**
   However callers, cancellations and goroutines interleave, the tracked Present operations in
   phase Ready never outnumber the slots (and there are none if the slot count is negative).
   */
  lemma SlotsNeverExceeded(states: seq<State>, steps: seq<Step>, i: nat)
    requires Trace(states, steps) && Init(states[0]) && i < |states|
    ensures |set k | k in states[i].reg.ops && ReadyOp(states[i].reg, k)| <= if states[0].slots > 0 then states[0].slots else 0
  {
    InvRun(states, steps, i);
    SlotsFixed(states, steps, i);
  }

  lemma {:induction false} SlotsFixed(states: seq<State>, steps: seq<Step>, i: nat)
    requires Trace(states, steps) && i < |states|
    ensures states[i].slots == states[0].slots
  {
    if i > 0 {
      SlotsFixed(states, steps, i - 1);
      assert states[i] == Apply(states[i - 1], steps[i - 1]);
    }
  }

  /** A handle that has reached a terminal phase stays in it, and stays closed once closed. */
  lemma {:induction false} TerminalIsForever(states: seq<State>, steps: seq<Step>, i: nat, j: nat, h: nat)
    requires Trace(states, steps) && Init(states[0]) && i <= j < |states|
    requires h in states[i].reg.handles
    ensures h in states[j].reg.handles && states[i].reg.handles[h].closes <= states[j].reg.handles[h].closes
    ensures IsTerminal(states[i].reg.handles[h].phase) ==> states[j].reg.handles[h].phase == states[i].reg.handles[h].phase
    decreases j - i
  {
    if i < j {
      TerminalIsForever(states, steps, i, j - 1, h);
      InvRun(states, steps, j - 1);
      var s, a := states[j - 1], steps[j - 1];
      EffectOk(s, a);
      PerformOk(s.reg, EffectOf(s, a));
      HandleEffect(s.reg, EffectOf(s, a), h);
    }
  }

  /**
   `done` is closed at most once, together with the events channel, and only in a terminal phase; and a terminal handle whose
   `done` is still open has a thread that is on its way to close it.  So once no thread is
   between the two, `done` is closed exactly for the terminal handles.
   */
  lemma DoneClosesOnce(states: seq<State>, steps: seq<Step>, i: nat, h: nat)
    requires Trace(states, steps) && Init(states[0]) && i < |states| && h in states[i].reg.handles
    ensures states[i].reg.handles[h].closes == states[i].reg.handles[h].eventCloses <= 1
    ensures states[i].reg.handles[h].closes == 1 ==> IsTerminal(states[i].reg.handles[h].phase)
    ensures (forall t :: t in states[i].threads ==> !Owes(states[i].threads[t], h)) ==>
              (states[i].reg.handles[h].closes == 1 <==> IsTerminal(states[i].reg.handles[h].phase))
  {
    InvRun(states, steps, i);
    assert HandleOk(states[i], h);
  }

  /** The NFs that goroutines past the pre-check are deploying right now. */
  ghost function DeployingKeys(s: State): set<Key> {
    set t | t in s.threads && s.threads[t].Running? && Cleared(s.threads[t].stage) :: s.threads[t].key
  }

  /** There is at most one, and then a slot is free. */
  lemma DeployingIsOne(s: State) returns (k: Key)
    requires Inv(s)
    ensures DeployingKeys(s) <= {k} && (DeployingKeys(s) != {} ==> |ReadyKeys(s.reg)| < s.slots)
  {
    k := Key("", "");
    if t :| t in s.threads && s.threads[t].Running? && Cleared(s.threads[t].stage) {
      k := s.threads[t].key;
      assert ThreadOk(s, t);
      forall k' | k' in DeployingKeys(s) ensures k' == k {
        var t' :| t' in s.threads && s.threads[t'].Running? && Cleared(s.threads[t'].stage) && s.threads[t'].key == k';
        assert ThreadOk(s, t');
      }
    }
  }

  /** Ready operations and the one that is being deployed: together they fit into the slots. */
  lemma ReadyAndDeployingFit(states: seq<State>, steps: seq<Step>, i: nat)
    requires Trace(states, steps) && Init(states[0]) && i < |states|
    ensures |ReadyKeys(states[i].reg) + DeployingKeys(states[i])| <= if states[0].slots > 0 then states[0].slots else 0
  {
    var s := states[i];
    assert Inv(s) by { InvRun(states, steps, i); }
    assert s.slots == states[0].slots by { SlotsFixed(states, steps, i); }
    var k := DeployingIsOne(s);
    if DeployingKeys(s) == {} {
      assert ReadyKeys(s.reg) + DeployingKeys(s) == ReadyKeys(s.reg);
    } else {
      SubsetSize(ReadyKeys(s.reg) + DeployingKeys(s), ReadyKeys(s.reg) + {k});
    }
  }
}

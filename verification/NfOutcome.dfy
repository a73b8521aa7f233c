/**
 What the goroutines of the BMv2 network-function manager report: how the terminal phase of a
 deployment or a deletion follows from what its calls did, in every run.
 */
module NfOutcome {
  import opened Basics
  import opened NfManager
  import NfForwarding

  // ---------------------------------------------------------------------------------------
  // What happened to a goroutine
  // ---------------------------------------------------------------------------------------

  /** The stages that make a call which can fail. */
  predicate IsCall(g: Stage) { g.Compile? || g.Deploy? || g.Setup? || g.Teardown? || g.Reset? }

  /** Step `a` is taken by goroutine `t`, at stage `g`. */
  predicate Acts(s: State, a: Step, t: nat, g: Stage) {
    a.Advance? && a.t == t && t in s.threads && s.threads[t].Running? && s.threads[t].stage == g
  }

  /** A call of goroutine `t` fails. */
  predicate FailsNow(s: State, a: Step, t: nat) {
    a.Advance? && a.t == t && !a.ok && t in s.threads && s.threads[t].Running? && IsCall(s.threads[t].stage)
  }

  /** Its pre-check has counted as many ready operations as there are slots. */
  predicate FullNow(s: State, a: Step, t: nat) {
    && a.Advance? && a.t == t && t in s.threads && s.threads[t].Running?
    && s.threads[t].stage.Check? && s.threads[t].stage.todo == {} && s.threads[t].stage.deployed >= s.slots
  }

  /** Its pre-check passes a tracked Present operation in phase Ready. */
  predicate CountsNow(s: State, a: Step, t: nat) {
    && a.Advance? && a.t == t && t in s.threads && s.threads[t].Running? && s.threads[t].stage.Check? && a.k in s.threads[t].stage.todo
    && a.k in s.reg.ops && s.reg.ops[a.k].kind.Present? && s.reg.ops[a.k].handle in s.reg.handles
    && s.reg.handles[s.reg.ops[a.k].handle].phase == Ready
  }

  /** It finds a program, and an operation that is not a deployment or is a ready one: there is forwarding to tear down. */
  predicate TearsNow(s: State, a: Step, t: nat) {
    && a.Advance? && a.t == t && t in s.threads && s.threads[t].Running? && s.threads[t].stage.Decide?
    && s.threads[t].key in s.reg.programs
    && (s.threads[t].stage.op.kind.Present? ==> PhaseIs(s.reg, s.threads[t].stage.op.handle, Ready))
  }

  /** It finds a program, and a deployment that is not ready. */
  predicate DropsNow(s: State, a: Step, t: nat) {
    && a.Advance? && a.t == t && t in s.threads && s.threads[t].Running? && s.threads[t].stage.Decide?
    && s.threads[t].key in s.reg.programs
    && s.threads[t].stage.op.kind.Present? && !PhaseIs(s.reg, s.threads[t].stage.op.handle, Ready)
  }

  /** What happened to a goroutine since it got the lock: counted and noted from the steps of the run. */
  datatype Record = Record(failed: bool, full: bool, panicked: bool, tears: bool, drops: bool, counted: nat, done: set<Stage>)

  const NOTHING := Record(false, false, false, false, false, 0, {})

  /** The record of goroutine `t` over the steps from `i` up to `j`. */
  ghost function Since(states: seq<State>, steps: seq<Step>, t: nat, i: nat, j: nat): Record
    requires |states| == |steps| + 1 && j <= |steps|
    decreases j
  {
    if j <= i then NOTHING
    else
      var r, s, a := Since(states, steps, t, i, j - 1), states[j - 1], steps[j - 1];
      Record(
        r.failed || FailsNow(s, a, t),
        r.full || FullNow(s, a, t),
        r.panicked || a == Panic(t),
        r.tears || TearsNow(s, a, t),
        r.drops || DropsNow(s, a, t),
        if CountsNow(s, a, t) then r.counted + 1 else r.counted,
        if a.Advance? && a.t == t && a.ok && t in s.threads && s.threads[t].Running? && IsCall(s.threads[t].stage)
        then r.done + {s.threads[t].stage} else r.done)
  }

  // ---------------------------------------------------------------------------------------
  // How the stage follows from it
  // ---------------------------------------------------------------------------------------

  /** A deployment: nothing went wrong before the end, and the end tells. */
  predicate DeploymentTells(s: State, k: Key, g: Stage, r: Record) {
    if g.End? then
      && g.p == (if r.failed || r.full || r.panicked then Failed else Ready)
      && (g.p == Ready ==> {Compile, Deploy, Setup} <= r.done && k in s.reg.programs && k in s.reg.wired && r.counted < s.slots)
      && (r.full ==> r.counted >= s.slots)
    else if g.Close? || g.Unlock? then true
    else
      && !r.failed && !r.full && !r.panicked
      && (g.Check? ==> g.deployed == r.counted)
      && (g == Compile || g == Enter(Compiling) || g == Enter(PreCheck) ==> r.counted == 0)
      && (g != Compile && g != Enter(Compiling) ==> Compile in r.done && k in s.reg.programs)
      && (g == Enter(Deploying) || g == Deploy || g == Enter(NetworkSetup) || g == Setup ==> r.counted < s.slots)
      && (g == Enter(NetworkSetup) || g == Setup ==> Deploy in r.done)
  }

  /** A deletion. */
  predicate DeletionTells(s: State, k: Key, g: Stage, r: Record) {
    if g.End? then
      && g.p == (if r.failed || r.panicked then Failed else Deleted)
      && (g.p == Deleted && r.tears ==> {Teardown, Reset} <= r.done && k !in s.reg.wired)
      && (g.p == Deleted && r.drops ==> k !in s.reg.programs)
    else if g.Close? || g.Unlock? then true
    else
      && !r.failed && !r.panicked && !(r.tears && r.drops)
      && (g.Teardown? || g.Reset? <==> r.tears)
      && (g.DropProgram? || g == DropOp(true) <==> r.drops)
      && (g.Reset? ==> Teardown in r.done && k !in s.reg.wired)
  }

  predicate Tells(s: State, pc: Pc, r: Record)
    requires pc.Running?
  {
    && StageFits(pc.kind, pc.stage)
    && if pc.kind.Present? then DeploymentTells(s, pc.key, pc.stage, r) else DeletionTells(s, pc.key, pc.stage, r)
  }

  /** Goroutine `t` gets the lock in step `i` and still has it in state `j`. */
  ghost predicate HasLock(states: seq<State>, steps: seq<Step>, t: nat, i: nat, j: nat) {
    && i < j < |states| && |states| == |steps| + 1 && steps[i] == Acquire(t)
    && forall m :: i < m <= j ==> t in states[m].threads && states[m].threads[t].Running?
  }

  /** What others do does not change the wired NFs and the programs while `t` has the lock. */
  lemma LockProtects(s: State, a: Step, t: nat)
    requires Inv(s) && Enabled(s, a) && t in s.threads && s.threads[t].Running? && a.t != t
    ensures Apply(s, a).reg.wired == s.reg.wired && Apply(s, a).reg.programs == s.reg.programs
    ensures t in Apply(s, a).threads && Apply(s, a).threads[t] == s.threads[t]
  {
    assert !s.threads[a.t].Running? by { assert ThreadOk(s, t) && ThreadOk(s, a.t); }
    WithoutLock(s, a);
  }

  lemma WithoutLock(s: State, a: Step)
    requires Enabled(s, a) && !s.threads[a.t].Running?
    ensures Apply(s, a).reg.wired == s.reg.wired && Apply(s, a).reg.programs == s.reg.programs
  {
  }

  /** One step of the goroutine itself; `r'` is its record after the step. */
  lemma DeploymentStep(s: State, a: Step, r: Record, r': Record)
    requires Enabled(s, a) && s.threads[a.t].Running? && s.threads[a.t].kind.Present? && Tells(s, s.threads[a.t], r)
    requires RecordStep(s, a, a.t, r, r') && Apply(s, a).threads[a.t].Running?
    ensures Tells(Apply(s, a), Apply(s, a).threads[a.t], r')
  {
  }

  lemma DeletionStep(s: State, a: Step, r: Record, r': Record)
    requires Enabled(s, a) && s.threads[a.t].Running? && s.threads[a.t].kind.Absent? && Tells(s, s.threads[a.t], r)
    requires RecordStep(s, a, a.t, r, r') && Apply(s, a).threads[a.t].Running?
    ensures Tells(Apply(s, a), Apply(s, a).threads[a.t], r')
  {
  }

  /** How the record goes on. */
  ghost predicate RecordStep(s: State, a: Step, t: nat, r: Record, r': Record) {
    && r'.failed == (r.failed || FailsNow(s, a, t)) && r'.full == (r.full || FullNow(s, a, t)) && r'.panicked == (r.panicked || a == Panic(t))
    && r'.tears == (r.tears || TearsNow(s, a, t)) && r'.drops == (r.drops || DropsNow(s, a, t))
    && r'.counted == (if CountsNow(s, a, t) then r.counted + 1 else r.counted)
    && r'.done == (if a.Advance? && a.t == t && a.ok && t in s.threads && s.threads[t].Running? && IsCall(s.threads[t].stage)
                   then r.done + {s.threads[t].stage} else r.done)
  }

  lemma TellsStep(s: State, a: Step, t: nat, r: Record, r': Record)
    requires Inv(s) && Enabled(s, a) && t in s.threads && s.threads[t].Running? && Tells(s, s.threads[t], r)
    requires RecordStep(s, a, t, r, r') && t in Apply(s, a).threads && Apply(s, a).threads[t].Running?
    ensures Tells(Apply(s, a), Apply(s, a).threads[t], r')
  {
    if a.t != t {
      LockProtects(s, a, t);
      assert r' == r;
    } else if s.threads[t].kind.Present? {
      DeploymentStep(s, a, r, r');
    } else {
      DeletionStep(s, a, r, r');
    }
  }

  lemma {:induction false} TellsRun(states: seq<State>, steps: seq<Step>, t: nat, i: nat, j: nat)
    requires Trace(states, steps) && Init(states[0]) && HasLock(states, steps, t, i, j)
    ensures Tells(states[j], states[j].threads[t], Since(states, steps, t, i + 1, j))
    decreases j
  {
    var s, a := states[j - 1], steps[j - 1];
    assert states[j] == Apply(s, a) && Enabled(s, a);
    if j > i + 1 {
      assert HasLock(states, steps, t, i, j - 1);
      TellsRun(states, steps, t, i, j - 1);
      assert Inv(s) by { InvRun(states, steps, j - 1); }
      TellsStep(s, a, t, Since(states, steps, t, i + 1, j - 1), Since(states, steps, t, i + 1, j));
    }
  }

  // ---------------------------------------------------------------------------------------
  // Main results
  // ---------------------------------------------------------------------------------------

  /** What the report of phase `p` by goroutine `t` in step `j` does to its handle: a cancelled handle stays cancelled. */
  lemma ReportTakesEffect(states: seq<State>, steps: seq<Step>, j: nat, t: nat, p: Phase)
    requires Trace(states, steps) && Init(states[0]) && j < |steps| && Acts(states[j], steps[j], t, End(p))
    ensures var h := states[j].threads[t].h;
            && h in states[j].reg.handles && h in states[j + 1].reg.handles
            && states[j + 1].reg.handles[h].phase == if AtRest(states[j].reg, h) then states[j].reg.handles[h].phase else p
  {
    var s := states[j];
    assert Inv(s) by { InvRun(states, steps, j); }
    assert ThreadOk(s, t);
    assert states[j + 1] == Apply(s, steps[j]);
  }

  /**
   In every run, a deployment that reports a terminal phase reports Ready exactly if none of its
   calls failed, its pre-check met fewer ready operations than there are slots, and it did not
   panic; then it has compiled, deployed and set up its NF, which is wired. Otherwise it reports
   Failed.
   */
  lemma DeploymentOutcome(states: seq<State>, steps: seq<Step>, t: nat, i: nat, j: nat, p: Phase)
    requires Trace(states, steps) && Init(states[0]) && HasLock(states, steps, t, i, j)
    requires states[j].threads[t].kind.Present? && states[j].threads[t].stage == End(p)
    ensures var r, k, reg := Since(states, steps, t, i + 1, j), states[j].threads[t].key, states[j].reg;
            && (p == Ready <==> !r.failed && !r.full && !r.panicked) && (p == Failed <==> r.failed || r.full || r.panicked)
            && (p == Ready ==> {Compile, Deploy, Setup} <= r.done && k in reg.programs && k in reg.wired && r.counted < states[j].slots)
            && (r.full ==> r.counted >= states[j].slots)
  {
    TellsRun(states, steps, t, i, j);
  }

  /**
   In every run, a deletion that reports a terminal phase reports Deleted exactly if none of its
   calls failed and it did not panic, and else Failed. If it reports Deleted and there was
   forwarding to tear down, it has torn it down and reset the pipeline, and the NF is not wired; if
   it found a deployment that was not ready, the program is gone.
   */
  lemma DeletionOutcome(states: seq<State>, steps: seq<Step>, t: nat, i: nat, j: nat, p: Phase)
    requires Trace(states, steps) && Init(states[0]) && HasLock(states, steps, t, i, j)
    requires states[j].threads[t].kind.Absent? && states[j].threads[t].stage == End(p)
    ensures var r, k, reg := Since(states, steps, t, i + 1, j), states[j].threads[t].key, states[j].reg;
            && (p == Deleted <==> !r.failed && !r.panicked) && (p == Failed <==> r.failed || r.panicked)
            && (p == Deleted && r.tears ==> {Teardown, Reset} <= r.done && k !in reg.wired)
            && (p == Deleted && r.drops ==> k !in reg.programs)
  {
    TellsRun(states, steps, t, i, j);
  }

  // ---------------------------------------------------------------------------------------
  // Replacing an operation
  // ---------------------------------------------------------------------------------------

  /** Asking for what is already tracked changes nothing. */
  lemma EnsureAgain(s: State, t: nat, k: Key, kind: Kind)
    requires Enabled(s, Ensure(t, k, kind)) && Inv(s) && k in s.reg.ops && s.reg.ops[k].kind == kind
    ensures Apply(s, Ensure(t, k, kind)) == s
  {
    assert s.threads[t := Idle] == s.threads;
  }

  /** Caller `t` is replacing the operation of `k` by one of this kind; `c` is the handle it found. */
  predicate Replaces(pc: Pc, k: Key, kind: Kind, c: nat) {
    match pc
    case Canceling(h, next) => h == c && next == Some((k, kind))
    case Finishing(h, next) => h == c && next == Some((k, kind))
    case Publishing(k', kind') => k' == k && kind' == kind
    case _ => false
  }

  /** The call that began in step `i` by finding handle `c` is not over in state `j`. */
  ghost predicate InReplacement(states: seq<State>, steps: seq<Step>, t: nat, k: Key, kind: Kind, c: nat, i: nat, j: nat) {
    && i < j < |states| && |states| == |steps| + 1 && steps[i] == Ensure(t, k, kind)
    && k in states[i].reg.ops && states[i].reg.ops[k].handle == c && states[i].reg.ops[k].kind != kind
    && forall m :: i < m <= j ==> t in states[m].threads && Replaces(states[m].threads[t], k, kind, c)
  }

  /** In every run, a caller that finds an operation of the other kind has made its handle terminal before it stores its own. */
  lemma {:induction false} FoundHandleIsTerminal(
    states: seq<State>, steps: seq<Step>, t: nat, k: Key, kind: Kind, c: nat, i: nat, j: nat)
    requires Trace(states, steps) && Init(states[0]) && InReplacement(states, steps, t, k, kind, c, i, j)
    ensures c in states[j].reg.handles && (!states[j].threads[t].Canceling? ==> AtRest(states[j].reg, c))
    decreases j
  {
    var s, a := states[j - 1], steps[j - 1];
    assert states[j] == Apply(s, a) && Enabled(s, a);
    assert Inv(s) by { InvRun(states, steps, j - 1); }
    if j > i + 1 {
      assert InReplacement(states, steps, t, k, kind, c, i, j - 1);
      FoundHandleIsTerminal(states, steps, t, k, kind, c, i, j - 1);
      ReplacementStep(s, a, t, k, kind, c);
    } else {
      assert RegistryOk(s.reg);
    }
  }

  lemma ReplacementStep(s: State, a: Step, t: nat, k: Key, kind: Kind, c: nat)
    requires Inv(s) && Enabled(s, a) && t in s.threads && Replaces(s.threads[t], k, kind, c)
    requires c in s.reg.handles && (!s.threads[t].Canceling? ==> AtRest(s.reg, c))
    requires t in Apply(s, a).threads && Replaces(Apply(s, a).threads[t], k, kind, c)
    ensures c in Apply(s, a).reg.handles && (!Apply(s, a).threads[t].Canceling? ==> AtRest(Apply(s, a).reg, c))
  {
    EffectOk(s, a);
    PerformOk(s.reg, EffectOf(s, a));
    if a.t == t && s.threads[t].Canceling? { assert EffectOf(s, a) == SetPhase(c, Canceled); }
  }

  /** So the operation that a caller replaces is over, if it is still the one that the caller found. */
  lemma ReplacedIsTerminal(states: seq<State>, steps: seq<Step>, t: nat, k: Key, kind: Kind, c: nat, i: nat, j: nat, h: nat, w: nat)
    requires Trace(states, steps) && Init(states[0]) && InReplacement(states, steps, t, k, kind, c, i, j)
    requires j < |steps| && steps[j] == Publish(t, h, w) && k in states[j].reg.ops && states[j].reg.ops[k].handle == c
    ensures AtRest(states[j].reg, c) && AtRest(states[j + 1].reg, c)
    ensures states[j + 1].reg.ops == states[j].reg.ops[k := Op(h, kind)] && h != c
  {
    FoundHandleIsTerminal(states, steps, t, k, kind, c, i, j);
    var s := states[j];
    assert states[j + 1] == Apply(s, steps[j]) && Enabled(s, steps[j]);
  }

  /**
   It need not be: if two callers overlap, the later one can replace an operation that it has not
   found, and whose handle is not terminal.
   */
  lemma OverlapReplacesLive(s: State, t: nat, u: nat, k: Key) returns (q: State, c: nat, a: Step)
    requires Init(s) && t in s.threads && u in s.threads && t != u
    ensures NfForwarding.Reaches(s, q) && Enabled(q, a) && k in q.reg.ops && q.reg.ops[k].handle == c
    ensures k in Apply(q, a).reg.ops && Apply(q, a).reg.ops[k].handle != c && c in Apply(q, a).reg.handles && !AtRest(Apply(q, a).reg, c)
  {
    NfForwarding.ReachesSelf(s);
    var s1 := Apply(s, Ensure(t, k, Present));
    NfForwarding.ReachesStep(s, s, Ensure(t, k, Present), s1);
    var s2 := Apply(s1, Ensure(u, k, Absent));
    NfForwarding.ReachesStep(s, s1, Ensure(u, k, Absent), s2);
    c := 0;
    var w := UnusedNumber(s2.threads.Keys);
    q := Apply(s2, Publish(t, c, w));
    NfForwarding.ReachesStep(s, s2, Publish(t, c, w), q);
    var v := UnusedNumber(q.threads.Keys);
    a := Publish(u, 1, v);
  }
}

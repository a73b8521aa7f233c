/**
 The driver-connection cache of the data-plane control service.

 A lookup releases the lock between reading the cache and publishing the connection it has
 dialled, so lookups and evictions for one device overlap.  Every locked section is one step,
 and so are the dialling and the closing that happen outside the lock.
 */
module ConnectionCache {
  import opened Basics

  type Device = nat
  type Address = string

  datatype Entry = Entry(address: Address, client: nat)

  /** A gRPC client connection: the device and the address it was dialled for, and how often it was closed. */
  datatype Client = Client(device: Device, address: Address, closes: nat)

  /** What a lookup asked for, and the connection it returned. */
  datatype Answer = Answer(device: Device, address: Address, client: nat)

  datatype Pc =
    | Idle
    | Evicting(device: Device, lookup: bool, address: Address)  // `lookup`: then go on dialling
    | Dialing(device: Device, address: Address)
    | Holding(device: Device, address: Address, client: nat)    // dialled, not yet published
    | Discarding(client: nat)                                   // another one was published first

  datatype State = State(cache: map<Device, Entry>, clients: map<nat, Client>, threads: map<nat, Pc>)

  datatype Step =
    | Lookup(t: nat, device: Device, address: Address)  // the address was just resolved
    | Drop(t: nat, device: Device)                      // a call failed: evictConnection
    | Evict(t: nat)
    | Dial(t: nat, client: nat)
    | DialFails(t: nat)
    | Publish(t: nat)
    | Discard(t: nat)

  predicate Enabled(s: State, a: Step) {
    && a.t in s.threads
    && match a
       case Lookup(t, d, addr) => s.threads[t].Idle?
       case Drop(t, d) => s.threads[t].Idle?
       case Evict(t) => s.threads[t].Evicting?
       case Dial(t, c) => s.threads[t].Dialing? && c !in s.clients
       case DialFails(t) => s.threads[t].Dialing?
       case Publish(t) => s.threads[t].Holding?
       case Discard(t) => s.threads[t].Discarding?
  }

  function Close(s: State, c: nat): State {
    if c in s.clients then s.(clients := s.clients[c := s.clients[c].(closes := s.clients[c].closes + 1)]) else s
  }

  function Goto(s: State, t: nat, pc: Pc): State {
    s.(threads := s.threads[t := pc])
  }

  function Apply(s: State, a: Step): State
    requires Enabled(s, a)
  {
    var pc := s.threads[a.t];
    match a
    case Lookup(t, d, addr) =>
      Goto(s, t, if d !in s.cache then Dialing(d, addr)
                 else if s.cache[d].address == addr then Idle     // returns the cached connection
                 else Evicting(d, true, addr))
    case Drop(t, d) => Goto(s, t, Evicting(d, false, ""))
    case Evict(t) =>
      var after := if pc.lookup then Dialing(pc.device, pc.address) else Idle;
      if pc.device in s.cache then
        Goto(Close(s, s.cache[pc.device].client).(cache := s.cache - {pc.device}), t, after)
      else Goto(s, t, after)
    case Dial(t, c) =>
      Goto(s, t, Holding(pc.device, pc.address, c)).(clients := s.clients[c := Client(pc.device, pc.address, 0)])
    case DialFails(t) => Goto(s, t, Idle)
    case Publish(t) =>
      if pc.device in s.cache && s.cache[pc.device].address == pc.address then
        Goto(s, t, Discarding(pc.client))   // returns the cached connection
      else
        var s1 := if pc.device in s.cache then Close(s, s.cache[pc.device].client) else s;
        Goto(s1, t, Idle).(cache := s.cache[pc.device := Entry(pc.address, pc.client)])
    case Discard(t) => Goto(Close(s, pc.client), t, Idle)
  }

  /** The connection that a step returns to the caller of a lookup, if it returns one. */
  function Answered(s: State, a: Step): Option<Answer>
    requires Enabled(s, a)
  {
    match a
    case Lookup(t, d, addr) =>
      if d in s.cache && s.cache[d].address == addr then Some(Answer(d, addr, s.cache[d].client)) else None
    case Publish(t) =>
      var pc := s.threads[t];
      if pc.device in s.cache && s.cache[pc.device].address == pc.address
      then Some(Answer(pc.device, pc.address, s.cache[pc.device].client))
      else Some(Answer(pc.device, pc.address, pc.client))
    case _ => None
  }

  ghost predicate Trace(states: seq<State>, steps: seq<Step>) {
    && |states| == |steps| + 1
    && forall i {:trigger steps[i]} :: 0 <= i < |steps| ==>
         Enabled(states[i], steps[i]) && states[i + 1] == Apply(states[i], steps[i])
  }

  ghost predicate Init(s: State) {
    s.cache == map[] && s.clients == map[] && forall t :: t in s.threads ==> s.threads[t].Idle?
  }

  // ---------------------------------------------------------------------------------------

  predicate Open(s: State, c: nat) {
    c in s.clients && s.clients[c].closes == 0
  }

  predicate Cached(s: State, c: nat) {
    c in s.clients && s.clients[c].device in s.cache && s.cache[s.clients[c].device].client == c
  }

  /** The thread has dialled `c` and has neither published nor closed it. */
  predicate Holds(pc: Pc, c: nat) {
    (pc.Holding? || pc.Discarding?) && pc.client == c
  }

  ghost predicate Held(s: State, c: nat) {
    exists t :: t in s.threads && Holds(s.threads[t], c)
  }

  ghost predicate CacheOk(s: State) {
    forall d :: d in s.cache ==> Open(s, s.cache[d].client) && s.clients[s.cache[d].client].device == d
  }

  ghost predicate ThreadOk(s: State, t: nat)
    requires t in s.threads
  {
    var pc := s.threads[t];
    && (pc.Holding? || pc.Discarding? ==> Open(s, pc.client) && !Cached(s, pc.client))
    && (pc.Holding? ==> s.clients[pc.client].device == pc.device)
  }

  ghost predicate OneHolder(s: State) {
    forall t, t', c :: t in s.threads && t' in s.threads && Holds(s.threads[t], c) && Holds(s.threads[t'], c) ==> t == t'
  }

  ghost predicate ClientOk(s: State, c: nat)
    requires c in s.clients
  {
    s.clients[c].closes <= 1 && (Open(s, c) ==> Cached(s, c) || Held(s, c))
  }

  ghost predicate Inv(s: State) {
    && CacheOk(s)
    && (forall t :: t in s.threads ==> ThreadOk(s, t))
    && OneHolder(s)
    && (forall c :: c in s.clients ==> ClientOk(s, c))
  }

  lemma CacheStep(s: State, a: Step)
    requires Inv(s) && Enabled(s, a)
    ensures CacheOk(Apply(s, a))
  {
    assert ThreadOk(s, a.t);
  }

  lemma ThreadStep(s: State, a: Step, t: nat)
    requires Inv(s) && Enabled(s, a) && t in s.threads
    ensures t in Apply(s, a).threads && ThreadOk(Apply(s, a), t)
  {
    assert ThreadOk(s, t) && ThreadOk(s, a.t);
    var pc := s.threads[t];
    if pc.Holding? || pc.Discarding? {
      assert Holds(pc, pc.client);
      assert t != a.t ==> !Holds(s.threads[a.t], pc.client);
    }
  }

  lemma HolderStep(s: State, a: Step)
    requires Inv(s) && Enabled(s, a)
    ensures OneHolder(Apply(s, a))
  {
    assert forall t :: t in s.threads ==> ThreadOk(s, t);
  }

  /** A connection leaves the cache or the hands of its thread only by changing place or being closed. */
  lemma ClientStep(s: State, a: Step, c: nat)
    requires Inv(s) && Enabled(s, a) && c in Apply(s, a).clients
    ensures ClientOk(Apply(s, a), c)
  {
    var s' := Apply(s, a);
    assert ThreadOk(s, a.t);
    if c in s.clients {
      assert ClientOk(s, c);
      if Open(s', c) && !Cached(s', c) {
        if Cached(s, c) || Holds(s.threads[a.t], c) {
          assert Holds(s'.threads[a.t], c);
        } else {
          var t :| t in s.threads && Holds(s.threads[t], c);
          assert t in s'.threads && Holds(s'.threads[t], c);
        }
      }
    } else {
      assert Holds(s'.threads[a.t], c);
    }
  }

  lemma InvStep(s: State, a: Step)
    requires Inv(s) && Enabled(s, a)
    ensures Inv(Apply(s, a))
  {
    CacheStep(s, a);
    HolderStep(s, a);
    forall t | t in Apply(s, a).threads ensures ThreadOk(Apply(s, a), t) { ThreadStep(s, a, t); }
    forall c | c in Apply(s, a).clients ensures ClientOk(Apply(s, a), c) { ClientStep(s, a, c); }
  }

  lemma {:induction false} InvRun(states: seq<State>, steps: seq<Step>, i: nat)
    requires Trace(states, steps) && Init(states[0]) && i < |states|
    ensures Inv(states[i])
  {
    if i > 0 {
      InvRun(states, steps, i - 1);
      InvStep(states[i - 1], steps[i - 1]);
    }
  }

  /**
   Over every interleaving of lookups and evictions, the open connections are exactly the cached
   ones and those a thread has dialled and not yet published or closed; no connection is closed
   twice, and the cache never holds a closed one.
   */
  lemma OpenConnectionsAccountedFor(states: seq<State>, steps: seq<Step>, i: nat)
    requires Trace(states, steps) && Init(states[0]) && i < |states|
    ensures forall c :: Open(states[i], c) <==> Cached(states[i], c) || Held(states[i], c)
    ensures forall c :: !(Cached(states[i], c) && Held(states[i], c))
    ensures forall c :: c in states[i].clients ==> states[i].clients[c].closes <= 1
    ensures forall d :: d in states[i].cache ==> Open(states[i], states[i].cache[d].client)
  {
    InvRun(states, steps, i);
    var s := states[i];
    forall c ensures (Open(s, c) <==> Cached(s, c) || Held(s, c)) && !(Cached(s, c) && Held(s, c)) {
      if Held(s, c) {
        var t :| t in s.threads && Holds(s.threads[t], c);
        assert ThreadOk(s, t);
      }
      if c in s.clients { assert ClientOk(s, c); }
    }
    assert forall c :: c in s.clients ==> ClientOk(s, c);
  }

  /** When no lookup is between dialling and publishing, no device has two open connections. */
  lemma NoLeakAtRest(states: seq<State>, steps: seq<Step>, i: nat, c: nat, c': nat)
    requires Trace(states, steps) && Init(states[0]) && i < |states|
    requires forall t :: t in states[i].threads ==> !states[i].threads[t].Holding? && !states[i].threads[t].Discarding?
    requires Open(states[i], c) && Open(states[i], c') && states[i].clients[c].device == states[i].clients[c'].device
    ensures c == c' && Cached(states[i], c)
  {
    OpenConnectionsAccountedFor(states, steps, i);
  }

  // ---------------------------------------------------------------------------------------
  // What a lookup returns
  // ---------------------------------------------------------------------------------------

  /** `c` was dialled for this device and this address. */
  predicate DialledFor(s: State, c: nat, d: Device, address: Address) {
    c in s.clients && s.clients[c].device == d && s.clients[c].address == address
  }

  /** Cached and held connections lead where they are said to lead. */
  ghost predicate AddressesOk(s: State) {
    && (forall d :: d in s.cache ==> DialledFor(s, s.cache[d].client, d, s.cache[d].address))
    && (forall t :: t in s.threads && s.threads[t].Holding? ==>
          DialledFor(s, s.threads[t].client, s.threads[t].device, s.threads[t].address))
  }

  lemma AddressesStep(s: State, a: Step)
    requires AddressesOk(s) && Enabled(s, a)
    ensures AddressesOk(Apply(s, a))
  {
  }

  lemma {:induction false} AddressesRun(states: seq<State>, steps: seq<Step>, i: nat)
    requires Trace(states, steps) && Init(states[0]) && i < |states|
    ensures AddressesOk(states[i])
  {
    if i > 0 {
      AddressesRun(states, steps, i - 1);
      AddressesStep(states[i - 1], steps[i - 1]);
    }
  }

  /** In every run, the cached connection of a device was dialled for that device, to the cached address. */
  lemma CachedAddressIsRight(states: seq<State>, steps: seq<Step>, i: nat, d: Device)
    requires Trace(states, steps) && Init(states[0]) && i < |states| && d in states[i].cache
    ensures var s, c := states[i], states[i].cache[d].client;
            c in s.clients && s.clients[c].device == d && s.clients[c].address == s.cache[d].address
  {
    AddressesRun(states, steps, i);
  }

  /** A thread is in a lookup of this device at this address, and has no answer yet. */
  predicate LooksUp(pc: Pc, d: Device, address: Address) {
    match pc
    case Evicting(d', lookup, address') => lookup && d' == d && address' == address
    case Dialing(d', address') => d' == d && address' == address
    case Holding(d', address', _) => d' == d && address' == address
    case _ => false
  }

  /** The connection is open, cached for the device, and was dialled for it to this address. */
  predicate RightAnswer(s: State, d: Device, address: Address, c: nat) {
    && d in s.cache && s.cache[d] == Entry(address, c)
    && c in s.clients && s.clients[c] == Client(d, address, 0)
  }

  lemma LookupBeginsStep(s: State, t: nat, d: Device, address: Address)
    requires Inv(s) && AddressesOk(s) && Enabled(s, Lookup(t, d, address))
    ensures var s', answer := Apply(s, Lookup(t, d, address)), Answered(s, Lookup(t, d, address));
            if d in s.cache && s.cache[d].address == address then
              s' == s && answer == Some(Answer(d, address, s.cache[d].client)) && RightAnswer(s, d, address, s.cache[d].client)
            else answer == None && t in s'.threads && LooksUp(s'.threads[t], d, address)
  {
    assert s.threads[t := Idle] == s.threads;
  }

  /** A lookup stays with what it asked for until it is answered, or dialling fails. */
  lemma LookupGoesOn(s: State, a: Step, d: Device, address: Address)
    requires Inv(s) && AddressesOk(s) && Enabled(s, a) && LooksUp(s.threads[a.t], d, address)
    ensures var s', answer := Apply(s, a), Answered(s, a);
            if a.DialFails? then answer == None && s'.threads[a.t].Idle?
            else if a.Publish? then
              && answer.Some? && answer.value.device == d && answer.value.address == address
              && RightAnswer(s', d, address, answer.value.client)
              && (d in s.cache && s.cache[d].address == address ==> s'.cache == s.cache)
            else answer == None && LooksUp(s'.threads[a.t], d, address)
  {
    assert ThreadOk(s, a.t);
  }

  /**
   In every run, a step that answers a lookup answers with a connection that is open and cached,
   and was dialled for the device asked for, to the address resolved. A lookup of an address that
   is cached is answered at once and changes nothing; every other one goes on, with the same device
   and address, until it publishes and is answered, or dialling fails. A cached connection to the
   resolved address is never replaced by a lookup.
   */
  lemma LookupsAreAnsweredRight(states: seq<State>, steps: seq<Step>, i: nat, d: Device, address: Address)
    requires Trace(states, steps) && Init(states[0]) && i < |steps|
    ensures var s, a, s' := states[i], steps[i], states[i + 1];
            && Enabled(s, a) && a.t in s'.threads
            && (Answered(s, a).Some? ==>
                  var r := Answered(s, a).value;
                  RightAnswer(s', r.device, r.address, r.client) && (a == Lookup(a.t, r.device, r.address) || LooksUp(s.threads[a.t], r.device, r.address)))
            && (a == Lookup(a.t, d, address) ==>
                  if d in s.cache && s.cache[d].address == address then s' == s && Answered(s, a).Some?
                  else Answered(s, a) == None && LooksUp(s'.threads[a.t], d, address))
            && (LooksUp(s.threads[a.t], d, address) ==>
                  if a.Publish? then Answered(s, a).Some? && (d in s.cache && s.cache[d].address == address ==> s'.cache == s.cache)
                  else a.DialFails? || LooksUp(s'.threads[a.t], d, address))
  {
    var s, a := states[i], steps[i];
    InvRun(states, steps, i);
    AddressesRun(states, steps, i);
    assert states[i + 1] == Apply(s, a);
    if a.Lookup? { LookupBeginsStep(s, a.t, a.device, a.address); }
    if a.Publish? { LookupGoesOn(s, a, s.threads[a.t].device, s.threads[a.t].address); }
    if LooksUp(s.threads[a.t], d, address) { LookupGoesOn(s, a, d, address); }
  }

  /** The call begun by step `i` is not over before step `j`. */
  ghost predicate InCall(states: seq<State>, t: nat, d: Device, address: Address, i: nat, j: nat) {
    i < j < |states| && forall m :: i < m <= j ==> t in states[m].threads && LooksUp(states[m].threads[t], d, address)
  }

  /** A connection that exists and that no thread holds is never held again. */
  lemma {:induction false} NotHeldAgain(states: seq<State>, steps: seq<Step>, i: nat, j: nat, c: nat)
    requires Trace(states, steps) && i <= j < |states| && c in states[i].clients && !Held(states[i], c)
    ensures c in states[j].clients && states[j].clients[c].device == states[i].clients[c].device && !Held(states[j], c)
    decreases j - i
  {
    if i < j {
      NotHeldAgain(states, steps, i, j - 1, c);
      var s, a := states[j - 1], steps[j - 1];
      assert states[j] == Apply(s, a) && Enabled(s, a);
      forall t | t in states[j].threads ensures !Holds(states[j].threads[t], c) {
        assert t in s.threads && !Holds(s.threads[t], c);
      }
    }
  }

  /** In every run, a lookup that finds another address has closed the connection it found before it dials. */
  lemma StaleIsClosed(states: seq<State>, steps: seq<Step>, i: nat, j: nat, t: nat, d: Device, address: Address)
    requires Trace(states, steps) && Init(states[0]) && i < |steps| && steps[i] == Lookup(t, d, address)
    requires d in states[i].cache && states[i].cache[d].address != address
    requires InCall(states, t, d, address, i, j) && !states[j].threads[t].Evicting?
    ensures !Open(states[j], states[i].cache[d].client)
  {
    var c := states[i].cache[d].client;
    InvRun(states, steps, i);
    OpenConnectionsAccountedFor(states, steps, i);
    StaleLeaves(states, steps, i, j, t, d, address, c);
  }

  /** While the call still has to evict, or else once the connection is no longer cached, it is closed. */
  lemma {:induction false} StaleLeaves(states: seq<State>, steps: seq<Step>, i: nat, j: nat, t: nat, d: Device, address: Address, c: nat)
    requires Trace(states, steps) && Init(states[0]) && i < |steps| && steps[i] == Lookup(t, d, address)
    requires d in states[i].cache && states[i].cache[d] == Entry(states[i].cache[d].address, c) && states[i].cache[d].address != address
    requires c in states[i].clients && states[i].clients[c].device == d && !Held(states[i], c) && InCall(states, t, d, address, i, j)
    ensures states[j].threads[t].Evicting? || !Open(states[j], c)
    decreases j - i
  {
    var s, a := states[j - 1], steps[j - 1];
    assert states[j] == Apply(s, a) && Enabled(s, a);
    if i + 1 < j {
      assert InCall(states, t, d, address, i, j - 1);
      StaleLeaves(states, steps, i, j - 1, t, d, address, c);
      NotHeldAgain(states, steps, i, j - 1, c);
      InvRun(states, steps, j - 1);
      if !Open(s, c) {
        ClosedStays(s, a, c);
      } else if a.t == t {
        assert a == Evict(t);
        EvictCloses(s, t, c);
      }
    }
  }

  lemma ClosedStays(s: State, a: Step, c: nat)
    requires Enabled(s, a) && c in s.clients && !Open(s, c)
    ensures !Open(Apply(s, a), c)
  {
  }

  /** After an eviction no connection of the device is open but those that threads hold. */
  lemma EvictCloses(s: State, t: nat, c: nat)
    requires Inv(s) && Enabled(s, Evict(t)) && c in s.clients && s.clients[c].device == s.threads[t].device && !Held(s, c)
    ensures !Open(Apply(s, Evict(t)), c) && s.threads[t].device !in Apply(s, Evict(t)).cache
  {
    assert ClientOk(s, c);
  }
}

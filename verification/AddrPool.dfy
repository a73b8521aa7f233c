/**
 AddrPool: single addresses of a prefix, handed out to named owners, released, and reserved.
 */
module AddrPool {
  import opened Ip
  import opened Broadcast
  import opened Basics

  /** The name of the object that holds an address. */
  datatype Owner = Owner(namespace: string, name: string)

  /** The pool as a value. */
  datatype Pool = Pool(base: Prefix, owners: map<Addr, Owner>, addrs: map<Owner, Addr>, last: Addr)

  /** What Contains computes: an address of the prefix that is neither its first nor an IPv4 broadcast. */
  predicate Usable(base: Prefix, addr: Addr)
    requires base.Valid()
  {
    var a := Unmap(addr);
    base.Contains(a) && a.value != base.Network() && (!a.V4? || a != BroadcastOf(base))
  }

  /** The allocatable addresses in numbers: strictly inside the range, the last IPv6 address included. */
  predicate Inside(base: Prefix, value: nat) {
    base.Network() < value && if base.v4 then value + 1 < base.Network() + base.Size() else value < base.Network() + base.Size()
  }

  lemma UsableIsInside(base: Prefix, addr: Addr)
    requires base.Valid()
    ensures Usable(base, addr) <==>
              && !Unmap(addr).NoAddr? && Unmap(addr).V4? == base.v4 && base.Network() < Unmap(addr).value
              && (if base.v4 then Unmap(addr).value + 1 < base.Network() + base.Size() else Unmap(addr).value < base.Network() + base.Size())
  {
    PrefixFits(base);
  }

  /** The two maps are inverse, and only canonical usable addresses are held. */
  ghost predicate ValidPool(p: Pool) {
    && p.base.Valid() && p.base.Contains(p.last)
    && (forall a :: a in p.owners ==> p.owners[a] in p.addrs && p.addrs[p.owners[a]] == a)
    && (forall o :: o in p.addrs ==> p.addrs[o] in p.owners && p.owners[p.addrs[o]] == o)
    && (forall a :: a in p.owners ==> p.base.Contains(a) && Usable(p.base, a))
  }

  /** Allocatable and not held. */
  ghost predicate Free(p: Pool, a: Addr)
    requires p.base.Valid()
  {
    p.base.Contains(a) && Usable(p.base, a) && a !in p.owners
  }

  /** How many steps the search takes from `last` to reach `a`, going round the prefix. */
  function Distance(p: Pool, a: Addr): int
    requires p.base.Contains(a) && p.base.Contains(p.last)
  {
    if a.value > p.last.value then a.value - p.last.value else a.value - p.last.value + p.base.Size()
  }

  /** `a` is the free address the search meets first. */
  ghost predicate FirstFree(p: Pool, a: Addr)
    requires ValidPool(p)
  {
    Free(p, a) && forall b :: Free(p, b) ==> Distance(p, a) <= Distance(p, b)
  }

  function Assigned(p: Pool, a: Addr, o: Owner): Pool {
    p.(owners := p.owners[a := o], addrs := p.addrs[o := a])
  }

  function Released(p: Pool, o: Owner): Pool {
    if o in p.addrs then p.(owners := p.owners - {p.addrs[o]}, addrs := p.addrs - {o}) else p
  }

  /** What Allocate does; `None` reports exhaustion. */
  ghost predicate Allocates(p: Pool, o: Owner, r: Option<Addr>, p': Pool)
    requires ValidPool(p)
  {
    if o in p.addrs then r == Some(p.addrs[o]) && p' == p
    else if r.Some? then FirstFree(p, r.value) && p' == Assigned(p, r.value, o).(last := r.value)
    else (forall a :: !Free(p, a)) && p' == p
  }

  /** What Reserve does, and whether it succeeds. */
  function Reserved(p: Pool, addr: Addr, o: Owner): (Pool, bool)
    requires p.base.Valid()
  {
    var a := Unmap(addr);
    if !Usable(p.base, a) then (p, false)
    else if a in p.owners then (p, p.owners[a] == o)
    else (Assigned(Released(p, o), a, o), true)
  }

  // ---------------------------------------------------------------------------------------
  // The search
  // ---------------------------------------------------------------------------------------

  /** The address after `a`, wrapping around to the start of the prefix. */
  function NextIn(base: Prefix, a: Addr): Addr
    requires base.Valid()
  {
    PrefixFits(base);
    var n := Next(a);
    if !n.NoAddr? && base.Contains(n) then n else MakeAddr(base.v4, base.Network())
  }

  /** The address `k` steps after `last`. */
  ghost predicate AtStep(p: Pool, a: Addr, k: int)
    requires p.base.Contains(p.last)
  {
    p.base.Contains(a) && Distance(p, a) == k
  }

  lemma NextStep(p: Pool, a: Addr, k: nat)
    requires p.base.Valid() && p.base.Contains(p.last)
    requires if k == 0 then a == p.last else AtStep(p, a, k)
    ensures k < p.base.Size() ==> AtStep(p, NextIn(p.base, a), k + 1)
    ensures k == p.base.Size() ==> AtStep(p, NextIn(p.base, a), 1)
  {
    PrefixFits(p.base);
  }

  lemma StepUnique(p: Pool, a: Addr, b: Addr, k: int)
    requires p.base.Contains(p.last) && AtStep(p, a, k) && AtStep(p, b, k)
    ensures a == b
  {
  }

  class AddressPool {
    const base: Prefix
    var owners: map<Addr, Owner>
    var addrs: map<Owner, Addr>
    var last: Addr

    ghost function Model(): Pool
      reads this
    {
      Pool(base, owners, addrs, last)
    }

    constructor (base: Prefix)
      requires base.Valid()
      ensures this.base == base && owners == map[] && addrs == map[]
      ensures ValidPool(Model())
    {
      PrefixFits(base);
      this.base := base;
      owners := map[];
      addrs := map[];
      last := MakeAddr(base.v4, base.Network());
    }

    method Contains(addr: Addr) returns (ok: bool)
      requires base.Valid()
      ensures ok == Usable(base, addr)
      ensures ok <==>
                && !Unmap(addr).NoAddr? && Unmap(addr).V4? == base.v4 && base.Network() < Unmap(addr).value
                && (if base.v4 then Unmap(addr).value + 1 < base.Network() + base.Size() else Unmap(addr).value < base.Network() + base.Size())
    {
      UsableIsInside(base, addr);
      var a := Unmap(addr);
      PrefixFits(base);
      if !base.Contains(a) || a == MakeAddr(base.v4, base.Network()) {
        return false;
      }
      var broadcast := BroadcastAddr(base);
      return !a.V4? || a != broadcast;
    }

    method Allocate(owner: Owner) returns (r: Option<Addr>)
      requires ValidPool(Model())
      modifies this
      ensures Allocates(old(Model()), owner, r, Model())
    {
      if owner in addrs {
        return Some(addrs[owner]);
      }
      ghost var p := Model();
      var start := NextIn(base, last);
      NextStep(p, last, 0);
      var addr := start;
      ghost var k := 1;
      while true
        invariant Model() == p && 1 <= k <= base.Size() && AtStep(p, addr, k)
        invariant forall b :: Free(p, b) ==> Distance(p, b) >= k
        decreases base.Size() - k
      {
        var ok := Contains(addr);
        if addr !in owners && ok {
          owners, addrs := owners[addr := owner], addrs[owner := addr];
          last := addr;
          return Some(addr);
        }
        NextStep(p, addr, k);
        forall b | Free(p, b) ensures Distance(p, b) > k {
          if Distance(p, b) == k { StepUnique(p, addr, b, k); }
        }
        addr := NextIn(base, addr);
        if addr == start {
          return None;
        }
        k := k + 1;
      }
    }

    method Reserve(addr: Addr, owner: Owner) returns (ok: bool)
      requires ValidPool(Model())
      modifies this
      ensures (Model(), ok) == Reserved(old(Model()), addr, owner)
    {
      var a := Unmap(addr);
      var usable := Contains(a);
      if !usable {
        return false;
      }
      if a in owners {
        return owners[a] == owner;
      }
      Release(owner);
      owners, addrs := owners[a := owner], addrs[owner := a];
      return true;
    }

    method Release(owner: Owner)
      modifies this
      ensures Model() == Released(old(Model()), owner)
    {
      if owner in addrs {
        owners := owners - {addrs[owner]};
        addrs := addrs - {owner};
      }
    }
  }

  // ---------------------------------------------------------------------------------------
  // Runs
  // ---------------------------------------------------------------------------------------

  datatype Op =
    | Allocate(owner: Owner, result: Option<Addr>)
    | Reserve(owner: Owner, addr: Addr)
    | Release(owner: Owner)

  ghost predicate Step(p: Pool, op: Op, p': Pool)
    requires ValidPool(p)
  {
    match op
    case Allocate(o, r) => Allocates(p, o, r, p')
    case Reserve(o, a) => p' == Reserved(p, a, o).0
    case Release(o) => p' == Released(p, o)
  }

  ghost predicate Run(pools: seq<Pool>, ops: seq<Op>) {
    && |pools| == |ops| + 1 && ValidPool(pools[0])
    && forall i {:trigger ops[i]} :: 0 <= i < |ops| ==> ValidPool(pools[i]) ==> Step(pools[i], ops[i], pools[i + 1])
  }

  lemma AssignKeepsValid(p: Pool, a: Addr, o: Owner)
    requires ValidPool(p) && Free(p, a) && o !in p.addrs
    ensures ValidPool(Assigned(p, a, o))
  {
  }

  lemma ReleaseKeepsValid(p: Pool, o: Owner)
    requires ValidPool(p)
    ensures ValidPool(Released(p, o)) && o !in Released(p, o).addrs
  {
  }

  /** A usable address in canonical form belongs to the prefix. */
  lemma UsableIsContained(base: Prefix, a: Addr)
    requires base.Valid() && Usable(base, a)
    ensures base.Contains(Unmap(a)) && Usable(base, Unmap(a))
  {
  }

  lemma StepKeepsValid(p: Pool, op: Op, p': Pool)
    requires ValidPool(p) && Step(p, op, p')
    ensures ValidPool(p') && p'.base == p.base
  {
    ReleaseKeepsValid(p, op.owner);
    match op
    case Allocate(o, r) =>
      if o !in p.addrs && r.Some? { AssignKeepsValid(p, r.value, o); }
    case Reserve(o, addr) =>
      if Usable(p.base, Unmap(addr)) && Unmap(addr) !in p.owners {
        UsableIsContained(p.base, addr);
        AssignKeepsValid(Released(p, o), Unmap(addr), o);
      }
    case Release(o) =>
  }

  /** An operation for one owner never touches what another owner holds. */
  lemma StepKeepsOthers(p: Pool, op: Op, p': Pool, other: Owner)
    requires ValidPool(p) && Step(p, op, p') && other != op.owner
    ensures other in p'.addrs <==> other in p.addrs
    ensures other in p.addrs ==> p'.addrs[other] == p.addrs[other]
  {
  }

  /** Over every run the two maps stay inverse and every held address is usable. */
  lemma {:induction false} PoolsStayValid(pools: seq<Pool>, ops: seq<Op>, i: nat)
    requires Run(pools, ops) && i < |pools|
    ensures ValidPool(pools[i]) && pools[i].base == pools[0].base
  {
    if i > 0 {
      PoolsStayValid(pools, ops, i - 1);
      StepKeepsValid(pools[i - 1], ops[i - 1], pools[i]);
    }
  }

  /**
   An owner keeps its address through every operation of the others and its own Allocates, and
   meanwhile nobody else is given that address.
   */
  lemma {:induction false} HoldingSurvives(pools: seq<Pool>, ops: seq<Op>, i: nat, j: nat, o: Owner)
    requires Run(pools, ops) && i <= j < |pools| && ValidPool(pools[i]) && o in pools[i].addrs
    requires forall k :: i <= k < j && ops[k].owner == o ==> ops[k].Allocate?
    ensures o in pools[j].addrs && pools[j].addrs[o] == pools[i].addrs[o]
    ensures forall k :: i <= k < j && ops[k].Allocate? && ops[k].result == Some(pools[i].addrs[o]) ==> ops[k].owner == o
    decreases j - i
  {
    if i < j {
      HoldingSurvives(pools, ops, i, j - 1, o);
      PoolsStayValid(pools, ops, j - 1);
      HoldingStep(pools[j - 1], ops[j - 1], pools[j], o);
    }
  }

  lemma HoldingStep(p: Pool, op: Op, p': Pool, o: Owner)
    requires ValidPool(p) && Step(p, op, p') && o in p.addrs && (op.owner == o ==> op.Allocate?)
    ensures o in p'.addrs && p'.addrs[o] == p.addrs[o]
    ensures op.Allocate? && op.result == Some(p.addrs[o]) ==> op.owner == o
  {
    StepKeepsValid(p, op, p');
    if op.owner != o { StepKeepsOthers(p, op, p', o); }
    if op.Allocate? && op.result.Some? {
      assert op.owner in p'.addrs && p'.addrs[op.owner] == op.result.value;
      assert p'.owners[op.result.value] == op.owner;
    }
  }

  /** The search is deterministic. */
  lemma AllocateDeterministic(p: Pool, o: Owner, r: Option<Addr>, p1: Pool, r': Option<Addr>, p2: Pool)
    requires ValidPool(p) && Allocates(p, o, r, p1) && Allocates(p, o, r', p2)
    ensures r == r' && p1 == p2
  {
    if o !in p.addrs && r.Some? && r'.Some? {
      StepUnique(p, r.value, r'.value, Distance(p, r.value));
    }
  }

  /** Exhaustion is reported exactly when every allocatable address is taken. */
  lemma ExhaustedIffFull(p: Pool, o: Owner, r: Option<Addr>, p': Pool)
    requires ValidPool(p) && Allocates(p, o, r, p') && o !in p.addrs
    ensures r.None? <==> forall a :: p.base.Contains(a) && Usable(p.base, a) ==> a in p.owners
  {
    if r.Some? {
      assert Free(p, r.value);
    } else {
      forall a | p.base.Contains(a) && Usable(p.base, a) ensures a in p.owners {
        assert !Free(p, a);
      }
    }
  }

  /** An address that was allocated and released is handed out next only if no other one is free. */
  lemma NextFit(p: Pool, o: Owner, a: Addr, p1: Pool, o': Owner, p2: Pool, c: Addr)
    requires ValidPool(p) && o !in p.addrs && Allocates(p, o, Some(a), p1)
    requires o' !in Released(p1, o).addrs && ValidPool(Released(p1, o)) && Allocates(Released(p1, o), o', Some(a), p2)
    requires Free(Released(p1, o), c)
    ensures c == a
  {
    var released := Released(p1, o);
    assert released.last == a && Distance(released, a) == released.base.Size();
    StepUnique(released, c, a, Distance(released, c));
  }

  // ---------------------------------------------------------------------------------------
  // The pool in numbers
  // ---------------------------------------------------------------------------------------

  /** The address with this number in the pool's family can be handed out and is not held. An IPv4-mapped one cannot. */
  ghost predicate FreeNumber(p: Pool, v: nat)
    requires p.base.Valid()
  {
    Inside(p.base, v) && v < Limit(p.base.v4) && (p.base.v4 || !Mapped(v)) && MakeAddr(p.base.v4, v) !in p.owners
  }

  /** Free addresses and free numbers are the same. */
  lemma FreeIsNumber(p: Pool, a: Addr)
    requires p.base.Valid()
    ensures Free(p, a) <==> !a.NoAddr? && a.V4? == p.base.v4 && FreeNumber(p, a.value)
  {
    UsableIsInside(p.base, a);
    PrefixFits(p.base);
  }

  /**
   What Allocate gives to an owner that holds nothing, in numbers: the least free number above the
   last one assigned, or else the least of all; it fails exactly if no number inside is free.
   */
  lemma AllocatesNextNumber(p: Pool, o: Owner, r: Option<Addr>, p': Pool)
    requires ValidPool(p) && o !in p.addrs && Allocates(p, o, r, p')
    ensures r.None? <==> forall v: nat :: !FreeNumber(p, v)
    ensures r.None? ==> p' == p
    ensures r.Some? ==>
              && !r.value.NoAddr? && r.value.V4? == p.base.v4 && FreeNumber(p, r.value.value) && p'.last == r.value
              && o in p'.addrs && p'.addrs[o] == r.value
              && (forall v: nat :: FreeNumber(p, v) && v > p.last.value ==> p.last.value < r.value.value <= v)
              && ((forall v: nat :: FreeNumber(p, v) ==> v <= p.last.value) ==> forall v: nat :: FreeNumber(p, v) ==> r.value.value <= v)
  {
    if r.Some? { FreeIsNumber(p, r.value); }
    forall v: nat | FreeNumber(p, v) ensures Free(p, MakeAddr(p.base.v4, v)) && (r.Some? ==> Distance(p, r.value) <= Distance(p, MakeAddr(p.base.v4, v))) {
      FreeIsNumber(p, MakeAddr(p.base.v4, v));
    }
  }

  /** What Reserve accepts, in numbers, and that it then gives the owner that address. */
  lemma ReserveAccepts(p: Pool, addr: Addr, o: Owner)
    requires ValidPool(p)
    ensures var (p', ok), a := Reserved(p, addr, o), Unmap(addr);
            && (ok <==> && !a.NoAddr? && a.V4? == p.base.v4 && Inside(p.base, a.value)
                        && (a in p.owners ==> p.owners[a] == o))
            && (ok ==> o in p'.addrs && p'.addrs[o] == a) && (!ok ==> p' == p) && p'.last == p.last
  {
    UsableIsInside(p.base, Unmap(addr));
    StepKeepsValid(p, Op.Reserve(o, addr), Reserved(p, addr, o).0);
  }

  /** In every run of the pool, every held address is strictly inside the range. */
  lemma HeldAreInside(pools: seq<Pool>, ops: seq<Op>, i: nat, o: Owner)
    requires Run(pools, ops) && i < |pools| && o in pools[i].addrs
    ensures var a, base := pools[i].addrs[o], pools[0].base;
            !a.NoAddr? && a.V4? == base.v4 && Inside(base, a.value)
  {
    PoolsStayValid(pools, ops, i);
    UsableIsInside(pools[i].base, pools[i].addrs[o]);
  }
}

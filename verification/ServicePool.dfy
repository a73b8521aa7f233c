/**
 The Service controller's address pool: it is rebuilt after a restart from the addresses that
 the cluster records, the loom Services' status first and the Kubernetes Services' external IPs
 last.
 */
module ServicePool {
  import opened Ip
  import opened AddrPool
  import opened Basics

  /**
   The addresses that one listed object records: each is what parsing its text gave. The owner
   is missing for a Kubernetes Service whose labels name none.
   */
  datatype Record = Record(owner: Option<Owner>, ips: seq<Option<Addr>>)

  function ReserveOne(p: Pool, o: Owner, ip: Option<Addr>): (p': Pool)
    requires p.base.Valid()
    ensures p'.base == p.base
  {
    if ip.Some? && Usable(p.base, ip.value) then Reserved(p, ip.value, o).0 else p
  }

  function ReserveIps(p: Pool, o: Owner, ips: seq<Option<Addr>>): (p': Pool)
    requires p.base.Valid()
    ensures p'.base == p.base
  {
    if ips == [] then p else ReserveOne(ReserveIps(p, o, ips[..|ips| - 1]), o, ips[|ips| - 1])
  }

  function ReserveRecord(p: Pool, r: Record): (p': Pool)
    requires p.base.Valid()
    ensures p'.base == p.base
  {
    if r.owner.Some? then ReserveIps(p, r.owner.value, r.ips) else p
  }

  function ReserveAll(p: Pool, records: seq<Record>): (p': Pool)
    requires p.base.Valid()
    ensures p'.base == p.base
  {
    if records == [] then p
    else ReserveRecord(ReserveAll(p, records[..|records| - 1]), records[|records| - 1])
  }

  /** One attempt to rebuild the pool; a missing list is an error of the List call. */
  datatype Attempt = Attempt(services: Option<seq<Record>>, kubeServices: Option<seq<Record>>) {
    predicate Succeeds() { services.Some? && kubeServices.Some? }
  }

  function Rebuild(p: Pool, t: Attempt): (p': Pool)
    requires p.base.Valid()
    ensures p'.base == p.base
  {
    if t.services.None? then p
    else
      var q := ReserveAll(p, t.services.value);
      if t.kubeServices.None? then q else ReserveAll(q, t.kubeServices.value)
  }

  class Reconciler {
    const pool: AddressPool
    var poolSynced: bool

    constructor (base: Prefix)
      requires base.Valid()
      ensures !poolSynced && fresh(pool) && pool.base == base
      ensures ValidPool(pool.Model()) && pool.Model().owners == map[]
    {
      pool := new AddressPool(base);
      poolSynced := false;
    }

    method ReserveServiceIPs(owner: Owner, ips: seq<Option<Addr>>)
      requires ValidPool(pool.Model())
      modifies pool
      ensures ValidPool(pool.Model())
      ensures pool.Model() == ReserveIps(old(pool.Model()), owner, ips)
    {
      for i := 0 to |ips|
        invariant ValidPool(pool.Model())
        invariant pool.Model() == ReserveIps(old(pool.Model()), owner, ips[..i])
      {
        assert ips[..i + 1][..i] == ips[..i];
        if ips[i].None? { continue; }
        var inPool := pool.Contains(ips[i].value);
        if !inPool { continue; }
        StepKeepsValid(pool.Model(), Op.Reserve(owner, ips[i].value), Reserved(pool.Model(), ips[i].value, owner).0);
        var _ := pool.Reserve(ips[i].value, owner);
      }
      assert ips[..|ips|] == ips;
    }

    method ReserveRecords(records: seq<Record>)
      requires ValidPool(pool.Model())
      modifies pool
      ensures ValidPool(pool.Model())
      ensures pool.Model() == ReserveAll(old(pool.Model()), records)
    {
      for i := 0 to |records|
        invariant ValidPool(pool.Model())
        invariant pool.Model() == ReserveAll(old(pool.Model()), records[..i])
      {
        assert records[..i + 1][..i] == records[..i];
        if records[i].owner.Some? {
          ReserveServiceIPs(records[i].owner.value, records[i].ips);
        }
      }
      assert records[..|records|] == records;
    }

    /** An attempt that fails in between keeps what it reserved, and the next call starts over. */
    method EnsurePoolSynced(t: Attempt) returns (ok: bool)
      requires ValidPool(pool.Model())
      modifies this, pool
      ensures ValidPool(pool.Model())
      ensures ok == (old(poolSynced) || t.Succeeds()) && poolSynced == ok
      ensures pool.Model() == if old(poolSynced) then old(pool.Model()) else Rebuild(old(pool.Model()), t)
    {
      if poolSynced {
        return true;
      }
      if t.services.None? {
        return false;
      }
      ReserveRecords(t.services.value);
      if t.kubeServices.None? {
        return false;
      }
      ReserveRecords(t.kubeServices.value);
      poolSynced := true;
      return true;
    }
  }

  // ---------------------------------------------------------------------------------------
  // Who holds what after a rebuild
  // ---------------------------------------------------------------------------------------

  ghost predicate Holds(p: Pool, o: Owner, x: Addr) {
    o in p.addrs && p.addrs[o] == x && x in p.owners && p.owners[x] == o
  }

  /** Nobody but `o` holds `x`. */
  ghost predicate Available(p: Pool, o: Owner, x: Addr) {
    x in p.owners ==> p.owners[x] == o
  }

  /** The object names owner `o`, and `x` (perhaps in its IPv4-mapped form) among its addresses. */
  ghost predicate Names(r: Record, o: Owner, x: Addr) {
    r.owner == Some(o) && exists i :: 0 <= i < |r.ips| && r.ips[i].Some? && Unmap(r.ips[i].value) == x
  }

  /** No object of another owner records `x`. */
  ghost predicate Unclaimed(records: seq<Record>, o: Owner, x: Addr) {
    forall r, o' :: r in records && Names(r, o', x) ==> o' == o
  }

  /** `o` records no address of the pool but `x`. */
  ghost predicate Only(base: Prefix, records: seq<Record>, o: Owner, x: Addr)
    requires base.Valid()
  {
    forall r, y :: r in records && Names(r, o, y) && Usable(base, y) ==> y == x
  }

  ghost predicate Recorded(records: seq<Record>, o: Owner, x: Addr) {
    exists r :: r in records && Names(r, o, x)
  }

  lemma ReserveOneKeepsValid(p: Pool, o: Owner, ip: Option<Addr>)
    requires ValidPool(p)
    ensures ValidPool(ReserveOne(p, o, ip))
  {
    if ip.Some? { StepKeepsValid(p, Op.Reserve(o, ip.value), Reserved(p, ip.value, o).0); }
  }

  lemma {:induction false} ReserveIpsKeepsValid(p: Pool, o: Owner, ips: seq<Option<Addr>>)
    requires ValidPool(p)
    ensures ValidPool(ReserveIps(p, o, ips))
    decreases |ips|
  {
    if ips != [] {
      var n := |ips| - 1;
      ReserveIpsKeepsValid(p, o, ips[..n]);
      ReserveOneKeepsValid(ReserveIps(p, o, ips[..n]), o, ips[n]);
    }
  }

  /** A reservation for another owner, or of another address, does not take `x` away from `o`. */
  lemma ReserveOneEffect(p: Pool, o': Owner, ip: Option<Addr>, o: Owner, x: Addr)
    requires ValidPool(p)
    requires o' != o && ip.Some? ==> Unmap(ip.value) != x
    ensures Available(p, o, x) ==> Available(ReserveOne(p, o', ip), o, x)
    ensures o' != o && Holds(p, o, x) ==> Holds(ReserveOne(p, o', ip), o, x)
  {
  }

  /** Reserving an available address of the pool succeeds, and reserving anything unusable changes nothing. */
  lemma ReserveOwn(p: Pool, o: Owner, ip: Option<Addr>, x: Addr)
    requires ValidPool(p) && Available(p, o, x)
    requires ip.Some? && Usable(p.base, ip.value) ==> Unmap(ip.value) == x
    requires Holds(p, o, x) || (ip.Some? && Usable(p.base, ip.value))
    ensures Holds(ReserveOne(p, o, ip), o, x)
  {
  }

  /** The effect on `o` and `x` of one object that gives `x` to nobody else. */
  lemma {:induction false} ReserveIpsEffect(p: Pool, o': Owner, ips: seq<Option<Addr>>, o: Owner, x: Addr)
    requires ValidPool(p)
    requires o' != o ==> forall i :: 0 <= i < |ips| && ips[i].Some? ==> Unmap(ips[i].value) != x
    ensures Available(p, o, x) ==> Available(ReserveIps(p, o', ips), o, x)
    ensures o' != o && Holds(p, o, x) ==> Holds(ReserveIps(p, o', ips), o, x)
    decreases |ips|
  {
    if ips != [] {
      var n := |ips| - 1;
      ReserveIpsEffect(p, o', ips[..n], o, x);
      ReserveIpsKeepsValid(p, o', ips[..n]);
      ReserveOneEffect(ReserveIps(p, o', ips[..n]), o', ips[n], o, x);
    }
  }

  /** The effect on `o` of its own object, all of whose pool addresses are `x`. */
  lemma {:induction false} OwnIpsEffect(p: Pool, ips: seq<Option<Addr>>, o: Owner, x: Addr)
    requires ValidPool(p) && Available(p, o, x)
    requires forall i :: 0 <= i < |ips| && InPool(p.base, ips[i]) ==> Unmap(ips[i].value) == x
    requires Holds(p, o, x) || exists i :: 0 <= i < |ips| && InPool(p.base, ips[i])
    ensures Holds(ReserveIps(p, o, ips), o, x)
    decreases |ips|
  {
    if ips != [] {
      var n := |ips| - 1;
      var q := ReserveIps(p, o, ips[..n]);
      assert Available(q, o, x) by { ReserveIpsEffect(p, o, ips[..n], o, x); }
      assert ValidPool(q) by { ReserveIpsKeepsValid(p, o, ips[..n]); }
      if Holds(p, o, x) || exists i :: 0 <= i < n && InPool(p.base, ips[i]) {
        assert forall i :: 0 <= i < n ==> ips[..n][i] == ips[i];
        OwnIpsEffect(p, ips[..n], o, x);
      }
      ReserveOwn(q, o, ips[n], x);
    }
  }

  predicate InPool(base: Prefix, ip: Option<Addr>)
    requires base.Valid()
  {
    ip.Some? && Usable(base, ip.value)
  }

  lemma {:induction false} ReserveAllKeepsValid(p: Pool, records: seq<Record>)
    requires ValidPool(p)
    ensures ValidPool(ReserveAll(p, records))
    decreases |records|
  {
    if records != [] {
      var n := |records| - 1;
      ReserveAllKeepsValid(p, records[..n]);
      if records[n].owner.Some? {
        ReserveIpsKeepsValid(ReserveAll(p, records[..n]), records[n].owner.value, records[n].ips);
      }
    }
  }

  /** One object: `x` stays available to `o`; if `o` held it or the object names it for `o`, `o` then holds it. */
  lemma RecordEffect(p: Pool, r: Record, o: Owner, x: Addr)
    requires ValidPool(p) && Available(p, o, x)
    requires forall o' :: Names(r, o', x) ==> o' == o
    ensures Available(ReserveRecord(p, r), o, x)
    ensures Usable(p.base, x) && Only(p.base, [r], o, x) && (Holds(p, o, x) || Names(r, o, x)) ==> Holds(ReserveRecord(p, r), o, x)
  {
    if r.owner.Some? {
      forall i | 0 <= i < |r.ips| && r.ips[i].Some? ensures Names(r, r.owner.value, Unmap(r.ips[i].value)) {}
      ReserveIpsEffect(p, r.owner.value, r.ips, o, x);
      if r.owner.value == o && Usable(p.base, x) && Only(p.base, [r], o, x) && (Holds(p, o, x) || Names(r, o, x)) {
        assert r in [r];
        OwnIpsEffect(p, r.ips, o, x);
      }
    }
  }

  /** A list in which nobody else claims `x` leaves it available to `o`. */
  lemma {:induction false} StaysAvailable(p: Pool, records: seq<Record>, o: Owner, x: Addr)
    requires ValidPool(p) && Available(p, o, x) && Unclaimed(records, o, x)
    ensures Available(ReserveAll(p, records), o, x)
    decreases |records|
  {
    if records != [] {
      var n := |records| - 1;
      StaysAvailable(p, records[..n], o, x);
      ReserveAllKeepsValid(p, records[..n]);
      assert records[n] in records;
      RecordEffect(ReserveAll(p, records[..n]), records[n], o, x);
    }
  }

  /** If moreover `o` held `x` or the list records it, and no other pool address for `o`, then `o` holds it. */
  lemma {:induction false} ListSettles(p: Pool, records: seq<Record>, o: Owner, x: Addr)
    requires ValidPool(p) && Usable(p.base, x) && Available(p, o, x)
    requires Unclaimed(records, o, x) && Only(p.base, records, o, x)
    requires Holds(p, o, x) || Recorded(records, o, x)
    ensures Holds(ReserveAll(p, records), o, x)
    decreases |records|
  {
    if records != [] {
      var n := |records| - 1;
      var q := ReserveAll(p, records[..n]);
      StaysAvailable(p, records[..n], o, x);
      ReserveAllKeepsValid(p, records[..n]);
      assert records[n] in records;
      RecordEffect(q, records[n], o, x);
      if Holds(p, o, x) || Recorded(records[..n], o, x) {
        ListSettles(p, records[..n], o, x);
      }
    }
  }

  /** External IPs win: `o` holds the external IP that only it records, whatever its status says. */
  lemma ExternalIPWins(p: Pool, t: Attempt, o: Owner, x: Addr)
    requires ValidPool(p) && t.Succeeds() && Usable(p.base, x) && Available(p, o, x)
    requires Unclaimed(t.services.value, o, x) && Unclaimed(t.kubeServices.value, o, x)
    requires Recorded(t.kubeServices.value, o, x) && Only(p.base, t.kubeServices.value, o, x)
    ensures ValidPool(Rebuild(p, t)) && Holds(Rebuild(p, t), o, x)
  {
    var q := ReserveAll(p, t.services.value);
    StaysAvailable(p, t.services.value, o, x);
    ReserveAllKeepsValid(p, t.services.value);
    ListSettles(q, t.kubeServices.value, o, x);
    ReserveAllKeepsValid(q, t.kubeServices.value);
  }

  /** Otherwise `o` keeps the address of its status that only it records. */
  lemma StatusIPKept(p: Pool, t: Attempt, o: Owner, x: Addr)
    requires ValidPool(p) && t.Succeeds() && Usable(p.base, x) && Available(p, o, x)
    requires Unclaimed(t.services.value, o, x) && Unclaimed(t.kubeServices.value, o, x)
    requires Recorded(t.services.value, o, x) && Only(p.base, t.services.value, o, x)
    requires Only(p.base, t.kubeServices.value, o, x)
    ensures ValidPool(Rebuild(p, t)) && Holds(Rebuild(p, t), o, x)
  {
    var q := ReserveAll(p, t.services.value);
    ListSettles(p, t.services.value, o, x);
    ReserveAllKeepsValid(p, t.services.value);
    ListSettles(q, t.kubeServices.value, o, x);
    ReserveAllKeepsValid(q, t.kubeServices.value);
  }

  // ---------------------------------------------------------------------------------------
  // Exactly when an external IP wins
  // ---------------------------------------------------------------------------------------

  lemma {:induction false} ReserveAllAppend(p: Pool, r1: seq<Record>, r2: seq<Record>)
    requires p.base.Valid()
    ensures ReserveAll(p, r1 + r2) == ReserveAll(ReserveAll(p, r1), r2)
    decreases |r2|
  {
    if r2 == [] {
      assert r1 + r2 == r1;
    } else {
      var n := |r2| - 1;
      assert (r1 + r2)[..|r1| + n] == r1 + r2[..n];
      ReserveAllAppend(p, r1, r2[..n]);
    }
  }

  /** Without a record that says so, nobody comes to hold `x`; a holder of `x` keeps it if it records nothing else. */
  lemma {:induction false} IpsKeepHolding(p: Pool, o': Owner, ips: seq<Option<Addr>>, o: Owner, x: Addr)
    requires ValidPool(p)
    requires o' == o ==> forall i :: 0 <= i < |ips| && ips[i].Some? ==> !Usable(p.base, ips[i].value)
    ensures Holds(p, o, x) <==> Holds(ReserveIps(p, o', ips), o, x)
    decreases |ips|
  {
    if ips != [] {
      var n := |ips| - 1;
      IpsKeepHolding(p, o', ips[..n], o, x);
      ReserveIpsKeepsValid(p, o', ips[..n]);
      ReserveOneOfOther(ReserveIps(p, o', ips[..n]), o', ips[n], o, x);
    }
  }

  lemma ReserveOneOfOther(p: Pool, o': Owner, ip: Option<Addr>, o: Owner, x: Addr)
    requires ValidPool(p) && (o' == o && ip.Some? ==> !Usable(p.base, ip.value))
    ensures Holds(p, o, x) <==> Holds(ReserveOne(p, o', ip), o, x)
  {
    if o' != o && ip.Some? {
      var p' := Reserved(p, ip.value, o').0;
      StepKeepsValid(p, Op.Reserve(o', ip.value), p');
      StepKeepsOthers(p, Op.Reserve(o', ip.value), p', o);
    }
  }

  /** A list that records no pool address for `o` does not change whether `o` holds `x`. */
  lemma {:induction false} ListKeepsHolding(p: Pool, records: seq<Record>, o: Owner, x: Addr)
    requires ValidPool(p)
    requires forall r, y :: r in records && Names(r, o, y) ==> !Usable(p.base, y)
    ensures Holds(p, o, x) <==> Holds(ReserveAll(p, records), o, x)
    decreases |records|
  {
    if records != [] {
      var n, r := |records| - 1, records[|records| - 1];
      ListKeepsHolding(p, records[..n], o, x);
      ReserveAllKeepsValid(p, records[..n]);
      assert r in records;
      if r.owner.Some? {
        forall i | 0 <= i < |r.ips| && r.ips[i].Some? ensures Names(r, r.owner.value, Unmap(r.ips[i].value)) {}
        IpsKeepHolding(ReserveAll(p, records[..n]), r.owner.value, r.ips, o, x);
      }
    }
  }

  /** While another owner holds `x`, an object that names no other pool address for `o` gives `o` nothing. */
  lemma {:induction false} TakenStaysTaken(p: Pool, ips: seq<Option<Addr>>, o: Owner, x: Addr)
    requires ValidPool(p) && !Available(p, o, x)
    requires forall i :: 0 <= i < |ips| && ips[i].Some? && Usable(p.base, ips[i].value) ==> Unmap(ips[i].value) == x
    ensures ReserveIps(p, o, ips) == p
    decreases |ips|
  {
    if ips != [] { TakenStaysTaken(p, ips[..|ips| - 1], o, x); }
  }

  /**
   Let one Kubernetes Service record for `o` the external IP `x`, and no later one another: then
   `o` ends up with `x` exactly if no other owner holds `x` when its turn comes. Other owners may
   record anything.
   */
  lemma ExternalIPWinsIff(p: Pool, services: seq<Record>, before: seq<Record>, r: Record, after: seq<Record>, o: Owner, x: Addr)
    requires ValidPool(p) && Usable(p.base, x) && Names(r, o, x) && Only(p.base, [r], o, x)
    requires forall r', y :: r' in after && Names(r', o, y) ==> !Usable(p.base, y)
    ensures Holds(Rebuild(p, Attempt(Some(services), Some(before + [r] + after))), o, x)
            <==> Available(ReserveAll(ReserveAll(p, services), before), o, x)
  {
    var q := ReserveAll(p, services);
    var turn := ReserveAll(q, before);
    ReserveAllKeepsValid(p, services);
    ReserveAllKeepsValid(q, before);
    ReserveAllAppend(q, before, [r]);
    ReserveAllAppend(q, before + [r], after);
    assert ReserveAll(turn, [r]) == ReserveRecord(ReserveAll(turn, [r][..0]), r);
    ReserveAllKeepsValid(turn, [r]);
    ListKeepsHolding(ReserveAll(turn, [r]), after, o, x);
    OwnTurn(turn, r, o, x);
  }

  lemma OwnTurn(p: Pool, r: Record, o: Owner, x: Addr)
    requires ValidPool(p) && Usable(p.base, x) && Names(r, o, x) && Only(p.base, [r], o, x)
    ensures Holds(ReserveRecord(p, r), o, x) <==> Available(p, o, x)
  {
    assert r in [r];
    if Available(p, o, x) {
      RecordEffect(p, r, o, x);
    } else {
      forall i | 0 <= i < |r.ips| && r.ips[i].Some? ensures Names(r, o, Unmap(r.ips[i].value)) {}
      TakenStaysTaken(p, r.ips, o, x);
    }
  }

  /**
   So external IPs do not always win: if the status of `b` still names the external IP of `a`
   and the Kubernetes Service of `a` is listed first, then `a` loses its address.
   */
  lemma StaleStatusBeatsExternalIP(p: Pool, a: Owner, b: Owner, x: Addr, y: Addr)
    requires ValidPool(p) && p.owners == map[] && a != b && x != y
    requires Usable(p.base, x) && Usable(p.base, y) && Unmap(x) == x && Unmap(y) == y
    ensures var services, kube := [Record(Some(b), [Some(x)])], [Record(Some(a), [Some(x)]), Record(Some(b), [Some(y)])];
            !Holds(Rebuild(p, Attempt(Some(services), Some(kube))), a, x)
  {
    var ra, rb := Record(Some(a), [Some(x)]), Record(Some(b), [Some(y)]);
    var status := Record(Some(b), [Some(x)]);
    assert [] + [ra] + [rb] == [ra, rb];
    assert ra.ips[0] == Some(x) && status.ips[0] == Some(x);
    assert Names(ra, a, x) && Names(status, b, x);
    OwnTurn(p, status, b, x);
    assert ReserveAll(p, [status]) == ReserveRecord(ReserveAll(p, [status][..0]), status);
    ExternalIPWinsIff(p, [status], [], ra, [rb], a, x);
  }

  /** No two objects of a list name the same owner. */
  ghost predicate DistinctOwners(records: seq<Record>) {
    forall i, j :: 0 <= i < j < |records| && records[i].owner.Some? ==> records[i].owner != records[j].owner
  }

  /** No object records two addresses of the pool. */
  ghost predicate OneAddressEach(base: Prefix, records: seq<Record>)
    requires base.Valid()
  {
    forall r, o, y, z :: r in records && Names(r, o, y) && Names(r, o, z) && Usable(base, y) && Usable(base, z) ==> y == z
  }

  ghost predicate SameObjects(a: seq<Record>, b: seq<Record>) { multiset(a) == multiset(b) }

  lemma SameMembers(a: seq<Record>, b: seq<Record>)
    requires SameObjects(a, b)
    ensures forall r :: r in a <==> r in b
  {
    forall r ensures r in a <==> r in b { assert r in multiset(a) <==> r in multiset(b); }
  }

  function ToFront(records: seq<Record>, i: nat): seq<Record>
    requires i < |records|
  {
    [records[i]] + (records[..i] + records[i + 1..])
  }

  lemma ToFrontSame(records: seq<Record>, i: nat)
    requires i < |records|
    ensures SameObjects(ToFront(records, i), records)
  {
    assert records == records[..i] + ([records[i]] + records[i + 1..]);
  }

  /** With distinct owners, the objects other than number `i` do not name its owner. */
  lemma OthersNameOthers(records: seq<Record>, i: nat, o: Owner)
    requires i < |records| && DistinctOwners(records) && records[i].owner == Some(o)
    ensures forall r :: r in records[..i] + records[i + 1..] ==> r.owner != Some(o)
  {
  }

  /** The objects of owner `o`, and the others, each in list order. */
  function OwnedBy(records: seq<Record>, o: Owner, own: bool): (r: seq<Record>)
    ensures forall x :: x in r ==> x in records && (x.owner == Some(o) <==> own)
  {
    if records == [] then []
    else
      var rest := OwnedBy(records[1..], o, own);
      if (records[0].owner == Some(o)) == own then [records[0]] + rest else rest
  }

  lemma SameWithOneMore(r: Record, a: seq<Record>, b: seq<Record>, rest: seq<Record>)
    requires SameObjects(a + b, rest)
    ensures SameObjects([r] + a + b, [r] + rest) && SameObjects(a + ([r] + b), [r] + rest)
  {
    assert [r] + a + b == [r] + (a + b);
  }

  lemma {:induction false} OwnFirstSame(records: seq<Record>, o: Owner)
    ensures SameObjects(OwnedBy(records, o, true) + OwnedBy(records, o, false), records)
  {
    if records != [] {
      OwnFirstSame(records[1..], o);
      SameWithOneMore(records[0], OwnedBy(records[1..], o, true), OwnedBy(records[1..], o, false), records[1..]);
      assert records == [records[0]] + records[1..];
    }
  }

  /** While another owner holds `x`, objects that name no other pool address for `o` give `o` nothing. */
  lemma {:induction false} TakenForAll(p: Pool, records: seq<Record>, o: Owner, x: Addr)
    requires ValidPool(p) && !Available(p, o, x) && Only(p.base, records, o, x)
    requires forall r :: r in records ==> r.owner == Some(o)
    ensures ReserveAll(p, records) == p
    decreases |records|
  {
    if records != [] {
      var n, r := |records| - 1, records[|records| - 1];
      assert r in records;
      TakenForAll(p, records[..n], o, x);
      forall i | 0 <= i < |r.ips| && r.ips[i].Some? ensures Names(r, o, Unmap(r.ips[i].value)) {}
      TakenStaysTaken(p, r.ips, o, x);
    }
  }

  /** An order in which `o` loses its external IP: a status that claims it comes first, then the Services of `o`. */
  lemma {:induction false} ClaimedFirst(p: Pool, services: seq<Record>, i: nat, b: Owner, kube: seq<Record>, o: Owner, x: Addr)
    requires ValidPool(p) && p.owners == map[] && Usable(p.base, x) && b != o && i < |services| && DistinctOwners(services)
    requires Names(services[i], b, x) && Only(p.base, [services[i]], b, x) && Only(p.base, kube, o, x)
    ensures !Holds(Rebuild(p, Attempt(Some(ToFront(services, i)), Some(OwnedBy(kube, o, true) + OwnedBy(kube, o, false)))), o, x)
  {
    var r, rest := services[i], services[..i] + services[i + 1..];
    OthersNameOthers(services, i, b);
    ReserveAllAppend(p, [r], rest);
    assert ReserveAll(p, [r]) == ReserveRecord(ReserveAll(p, [r][..0]), r);
    OwnTurn(p, r, b, x);
    ReserveAllKeepsValid(p, [r]);
    ListKeepsHolding(ReserveAll(p, [r]), rest, b, x);
    var q := ReserveAll(p, ToFront(services, i));
    ReserveAllKeepsValid(p, ToFront(services, i));
    LosesExternalIP(q, kube, b, o, x);
  }

  lemma {:induction false} LosesExternalIP(q: Pool, kube: seq<Record>, b: Owner, o: Owner, x: Addr)
    requires ValidPool(q) && Holds(q, b, x) && b != o && Only(q.base, kube, o, x)
    ensures !Holds(ReserveAll(q, OwnedBy(kube, o, true) + OwnedBy(kube, o, false)), o, x)
  {
    var own, others := OwnedBy(kube, o, true), OwnedBy(kube, o, false);
    ReserveAllAppend(q, own, others);
    TakenForAll(q, own, o, x);
    ListKeepsHolding(q, others, o, x);
  }

  /**
   External IPs win, in whatever order the API server lists the objects, exactly if no status of
   another owner claims the address. (`x` is recorded as an external IP by `o` only.)
   */
  lemma {:induction false} ExternalIPAlwaysWinsIff(p: Pool, services: seq<Record>, kube: seq<Record>, o: Owner, x: Addr)
    requires ValidPool(p) && p.owners == map[] && Usable(p.base, x)
    requires DistinctOwners(services) && OneAddressEach(p.base, services)
    requires Recorded(kube, o, x) && Only(p.base, kube, o, x) && Unclaimed(kube, o, x)
    ensures (forall s', k' :: SameObjects(s', services) && SameObjects(k', kube) ==> Holds(Rebuild(p, Attempt(Some(s'), Some(k'))), o, x))
            <==> Unclaimed(services, o, x)
  {
    if Unclaimed(services, o, x) {
      forall s', k' | SameObjects(s', services) && SameObjects(k', kube) ensures Holds(Rebuild(p, Attempt(Some(s'), Some(k'))), o, x) {
        SameMembers(s', services);
        SameMembers(k', kube);
        ExternalIPWins(p, Attempt(Some(s'), Some(k')), o, x);
      }
    } else {
      var r, b :| r in services && Names(r, b, x) && b != o;
      var i :| 0 <= i < |services| && services[i] == r;
      ClaimedFirst(p, services, i, b, kube, o, x);
      ToFrontSame(services, i);
      OwnFirstSame(kube, o);
    }
  }

  // ---------------------------------------------------------------------------------------
  // Failed attempts, and the time after
  // ---------------------------------------------------------------------------------------

  /** The pool after a sequence of attempts. */
  function AfterAttempts(p: Pool, ts: seq<Attempt>): (p': Pool)
    requires p.base.Valid()
    ensures p'.base == p.base
  {
    if ts == [] then p else Rebuild(AfterAttempts(p, ts[..|ts| - 1]), ts[|ts| - 1])
  }

  ghost predicate NobodyElse(t: Attempt, o: Owner, x: Addr) {
    && (t.services.Some? ==> Unclaimed(t.services.value, o, x))
    && (t.kubeServices.Some? ==> Unclaimed(t.kubeServices.value, o, x))
  }

  lemma {:induction false} AttemptsKeepAvailable(p: Pool, ts: seq<Attempt>, o: Owner, x: Addr)
    requires ValidPool(p) && Available(p, o, x) && forall t :: t in ts ==> NobodyElse(t, o, x)
    ensures ValidPool(AfterAttempts(p, ts)) && Available(AfterAttempts(p, ts), o, x)
    decreases |ts|
  {
    if ts != [] {
      var n := |ts| - 1;
      AttemptsKeepAvailable(p, ts[..n], o, x);
      var q, t := AfterAttempts(p, ts[..n]), ts[n];
      assert NobodyElse(t, o, x);
      if t.services.Some? {
        StaysAvailable(q, t.services.value, o, x);
        ReserveAllKeepsValid(q, t.services.value);
        if t.kubeServices.Some? {
          StaysAvailable(ReserveAll(q, t.services.value), t.kubeServices.value, o, x);
          ReserveAllKeepsValid(ReserveAll(q, t.services.value), t.kubeServices.value);
        }
      }
    }
  }

  /**
   After a restart no address is given away: whatever attempts fail before one succeeds, from
   then on, in every run of the pool, `o` is given its external IP `x` and nobody else is, until
   `o` releases it or reserves another.
   */
  lemma ExternalIPSurvivesRestart(
    p: Pool, failed: seq<Attempt>, t: Attempt, o: Owner, x: Addr, pools: seq<Pool>, ops: seq<AddrPool.Op>, k: nat)
    requires ValidPool(p) && p.owners == map[] && Usable(p.base, x)
    requires t.Succeeds() && NobodyElse(t, o, x) && forall f :: f in failed ==> NobodyElse(f, o, x)
    requires Recorded(t.kubeServices.value, o, x) && Only(p.base, t.kubeServices.value, o, x)
    requires Run(pools, ops) && pools[0] == Rebuild(AfterAttempts(p, failed), t)
    requires k < |ops| && ops[k].Allocate? && forall i :: 0 <= i < k && ops[i].owner == o ==> ops[i].Allocate?
    ensures ops[k].owner == o <==> ops[k].result == Some(x)
  {
    AttemptsKeepAvailable(p, failed, o, x);
    ExternalIPWins(AfterAttempts(p, failed), t, o, x);
    HoldingSurvives(pools, ops, 0, k + 1, o);
    HoldingSurvives(pools, ops, 0, k, o);
    PoolsStayValid(pools, ops, k);
  }
}

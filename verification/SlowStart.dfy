/**
 Creating the missing NetworkFunctions of a replica set in batches that double in size, and the
 creations that the controller then expects to observe.
 */
module SlowStart {
  import opened Basics

  /** How many of the `n` calls from number `start` on succeed. */
  function Successes(ok: nat -> bool, start: nat, n: nat): (r: nat)
    ensures r <= n
  {
    if n == 0 then 0 else Successes(ok, start, n - 1) + if ok(start + n - 1) then 1 else 0
  }

  lemma {:induction false} SuccessesSplit(ok: nat -> bool, start: nat, m: nat, n: nat)
    ensures Successes(ok, start, m + n) == Successes(ok, start, m) + Successes(ok, start + m, n)
  {
    if n > 0 { SuccessesSplit(ok, start, m, n - 1); }
  }

  /** The sizes of the batches, the number of successful calls, and whether a call failed. */
  datatype Trace = Trace(sizes: seq<nat>, successes: nat, failed: bool)

  /** One batch of `n` calls, then the batches of `rest` unless a call failed. */
  function Then(successes: nat, n: nat, rest: Trace): Trace {
    if successes < n then Trace([n], successes, true)
    else Trace([n] + rest.sizes, n + rest.successes, rest.failed)
  }

  /** The batches from one of size `base` on, `calls` calls having been made; `ok(k)` tells whether call k succeeds. */
  function Batches(ok: nat -> bool, calls: nat, base: nat, remaining: nat): Trace
    requires base > 0
    decreases remaining
  {
    if remaining == 0 then Trace([], 0, false)
    else
      var n := Min(base, remaining);
      Then(Successes(ok, calls, n), n, Batches(ok, calls + n, 2 * n, remaining - n))
  }

  /** slowStartBatch. */
  function SlowStart(ok: nat -> bool, count: int, initial: int): Trace {
    if count <= 0 || initial <= 0 then Trace([], 0, false) else Batches(ok, 0, initial, count)
  }

  function Sum(s: seq<nat>): nat {
    if s == [] then 0 else s[0] + Sum(s[1..])
  }

  /** What is left to do when the next batch has size `batch`, if any. */
  ghost function Resume(ok: nat -> bool, calls: nat, batch: int, remaining: int): Trace {
    if batch <= 0 || remaining <= 0 then Trace([], 0, false) else Batches(ok, calls, batch, remaining)
  }

  lemma {:induction false} ResumeStep(ok: nat -> bool, calls: nat, batch: nat, remaining: nat)
    requires 0 < batch <= remaining
    ensures Resume(ok, calls, batch, remaining)
         == Then(Successes(ok, calls, batch), batch, Resume(ok, calls + batch, Min(2 * batch, remaining - batch), remaining - batch))
  {
    var rest := Batches(ok, calls + batch, 2 * batch, remaining - batch);
    assert Min(batch, remaining) == batch;
    assert Resume(ok, calls, batch, remaining) == Then(Successes(ok, calls, batch), batch, rest);
    assert rest == Resume(ok, calls + batch, 2 * batch, remaining - batch);
    CutBase(ok, calls + batch, 2 * batch, remaining - batch);
  }

  /** A batch size beyond what remains makes no difference. */
  lemma CutBase(ok: nat -> bool, calls: nat, base: int, remaining: int)
    ensures Resume(ok, calls, Min(base, remaining), remaining) == Resume(ok, calls, base, remaining)
  {
  }

  /** `sizes` records the batches. */
  method SlowStartBatch(count: int, initial: int, fn: nat -> bool) returns (successes: nat, failed: bool, ghost sizes: seq<nat>)
    ensures successes == SlowStart(fn, count, initial).successes && failed == SlowStart(fn, count, initial).failed
    ensures Trace(sizes, successes, failed) == SlowStart(fn, count, initial)
  {
    ghost var goal := SlowStart(fn, count, initial);
    FirstBatch(fn, count, initial);
    var remaining := count;
    successes, sizes := 0, [];
    var calls := 0;
    var batch := Min(remaining, initial);
    while batch > 0
      invariant batch <= remaining
      invariant goal == After(sizes, successes, Resume(fn, calls, batch, remaining))
      decreases remaining
    {
      NextBatch(goal, sizes, successes, fn, calls, batch, remaining);
      var errors := RunBatch(calls, batch, fn);
      successes := successes + (batch - errors);
      sizes := sizes + [batch];
      if errors > 0 {
        return successes, true, sizes;
      }
      calls := calls + batch;
      remaining := remaining - batch;
      batch := Min(2 * batch, remaining);
    }
    NoBatchLeft(sizes, successes, fn, calls, batch, remaining);
    return successes, false, sizes;
  }

  lemma FirstBatch(ok: nat -> bool, count: int, initial: int)
    ensures SlowStart(ok, count, initial) == After([], 0, Resume(ok, 0, Min(count, initial), count))
  {
    CutBase(ok, 0, initial, count);
    var t := Resume(ok, 0, initial, count);
    assert [] + t.sizes == t.sizes;
  }

  lemma NoBatchLeft(sizes: seq<nat>, successes: nat, ok: nat -> bool, calls: nat, batch: int, remaining: int)
    requires batch <= 0
    ensures After(sizes, successes, Resume(ok, calls, batch, remaining)) == Trace(sizes, successes, false)
  {
    assert sizes + [] == sizes;
  }

  /** A trace preceded by batches that all succeeded. */
  ghost function After(sizes: seq<nat>, successes: nat, rest: Trace): Trace {
    Trace(sizes + rest.sizes, successes + rest.successes, rest.failed)
  }

  lemma AfterThen(sizes: seq<nat>, successes: nat, ok: nat, n: nat, rest: Trace)
    ensures After(sizes, successes, Then(ok, n, rest))
         == if ok < n then Trace(sizes + [n], successes + ok, true) else After(sizes + [n], successes + n, rest)
  {
    assert sizes + ([n] + rest.sizes) == sizes + [n] + rest.sizes;
  }

  lemma NextBatch(goal: Trace, sizes: seq<nat>, successes: nat, ok: nat -> bool, calls: nat, batch: nat, remaining: nat)
    requires 0 < batch <= remaining && goal == After(sizes, successes, Resume(ok, calls, batch, remaining))
    ensures goal == if Successes(ok, calls, batch) < batch
                    then Trace(sizes + [batch], successes + Successes(ok, calls, batch), true)
                    else After(sizes + [batch], successes + batch, Resume(ok, calls + batch, Min(2 * batch, remaining - batch), remaining - batch))
  {
    var rest := Resume(ok, calls + batch, Min(2 * batch, remaining - batch), remaining - batch);
    ResumeStep(ok, calls, batch, remaining);
    AfterThen(sizes, successes, Successes(ok, calls, batch), batch, rest);
  }

  /** The calls of one batch; their order does not matter to the number of errors. */
  method RunBatch(calls: nat, batch: nat, fn: nat -> bool) returns (errors: nat)
    ensures errors == batch - Successes(fn, calls, batch)
  {
    errors := 0;
    for i := 0 to batch
      invariant errors == i - Successes(fn, calls, i)
    {
      if !fn(calls + i) { errors := errors + 1; }
    }
  }

  // ---------------------------------------------------------------------------------------
  // What the batches amount to
  // ---------------------------------------------------------------------------------------

  /** No batch is larger than `allowance` and the calls before it together. */
  ghost predicate Grows(sizes: seq<nat>, allowance: nat) {
    sizes == [] || (sizes[0] <= allowance && Grows(sizes[1..], allowance + sizes[0]))
  }

  lemma {:induction false} GrowsAt(sizes: seq<nat>, allowance: nat, j: nat)
    requires Grows(sizes, allowance) && j < |sizes|
    ensures sizes[j] <= allowance + Sum(sizes[..j])
  {
    if j > 0 {
      GrowsAt(sizes[1..], allowance + sizes[0], j - 1);
      assert sizes[..j][1..] == sizes[1..][..j - 1];
    }
  }

  lemma {:induction false} SumSnoc(s: seq<nat>, x: nat)
    ensures Sum(s + [x]) == Sum(s) + x
  {
    if s == [] {
      assert s + [x] == [x] && [x][1..] == [];
    } else {
      assert (s + [x])[1..] == s[1..] + [x];
      SumSnoc(s[1..], x);
    }
  }

  lemma ThenSizes(successes: nat, n: nat, rest: Trace)
    requires successes <= n
    ensures var t := Then(successes, n, rest);
            && Sum(t.sizes) == (if successes < n then n else n + Sum(rest.sizes))
            && t.sizes != [] && t.sizes[0] == n && t.sizes[1..] == (if successes < n then [] else rest.sizes)
  {
    assert [n][1..] == [] && ([n] + rest.sizes)[1..] == rest.sizes;
  }

  lemma ThenSuccesses(ok: nat -> bool, calls: nat, n: nat, rest: Trace)
    requires rest.successes == Successes(ok, calls + n, Sum(rest.sizes))
    ensures var t := Then(Successes(ok, calls, n), n, rest);
            t.successes == Successes(ok, calls, Sum(t.sizes))
  {
    ThenSizes(Successes(ok, calls, n), n, rest);
    SuccessesSplit(ok, calls, n, Sum(rest.sizes));
  }

  /** The successes are those of the calls made, which are at most `remaining`; all of them if none fails. */
  ghost predicate CountsCalls(ok: nat -> bool, calls: nat, remaining: nat, t: Trace) {
    && t.successes == Successes(ok, calls, Sum(t.sizes)) && Sum(t.sizes) <= remaining
    && (!t.failed ==> t.successes == remaining)
  }

  /** A failure lies in the last batch. */
  ghost predicate FailsLast(t: Trace) {
    t.failed ==> t.sizes != [] && Sum(t.sizes) - t.sizes[|t.sizes| - 1] <= t.successes < Sum(t.sizes)
  }

  lemma ThenCounts(ok: nat -> bool, calls: nat, n: nat, remaining: nat, rest: Trace)
    requires n <= remaining && CountsCalls(ok, calls + n, remaining - n, rest)
    ensures CountsCalls(ok, calls, remaining, Then(Successes(ok, calls, n), n, rest))
  {
    ThenSizes(Successes(ok, calls, n), n, rest);
    ThenSuccesses(ok, calls, n, rest);
  }

  lemma ThenFails(successes: nat, n: nat, rest: Trace)
    requires successes <= n && FailsLast(rest)
    ensures FailsLast(Then(successes, n, rest))
  {
    ThenSizes(successes, n, rest);
  }

  lemma ThenGrows(successes: nat, n: nat, rest: Trace, base: nat)
    requires successes <= n <= base && (n < base ==> rest.sizes == []) && Grows(rest.sizes, 2 * n)
    ensures Grows(Then(successes, n, rest).sizes, base)
  {
    ThenSizes(successes, n, rest);
  }

  ghost predicate Sound(ok: nat -> bool, calls: nat, base: nat, remaining: nat, t: Trace) {
    CountsCalls(ok, calls, remaining, t) && FailsLast(t) && Grows(t.sizes, base) && (remaining == 0 ==> t.sizes == [])
  }

  lemma ThenSound(ok: nat -> bool, calls: nat, base: nat, n: nat, remaining: nat, rest: Trace)
    requires 0 < n == Min(base, remaining) && Sound(ok, calls + n, 2 * n, remaining - n, rest)
    ensures Sound(ok, calls, base, remaining, Then(Successes(ok, calls, n), n, rest))
  {
    ThenCounts(ok, calls, n, remaining, rest);
    ThenFails(Successes(ok, calls, n), n, rest);
    ThenGrows(Successes(ok, calls, n), n, rest, base);
  }

  /** Every trace counts its calls and fails in the last batch only; no batch exceeds the calls before it by more than `base`. */
  lemma {:induction false} BatchesAreSound(ok: nat -> bool, calls: nat, base: nat, remaining: nat)
    requires base > 0
    ensures Sound(ok, calls, base, remaining, Batches(ok, calls, base, remaining))
    decreases remaining
  {
    if remaining > 0 {
      var n := Min(base, remaining);
      var rest := Batches(ok, calls + n, 2 * n, remaining - n);
      assert Batches(ok, calls, base, remaining) == Then(Successes(ok, calls, n), n, rest);
      assert Sound(ok, calls, base, remaining, Then(Successes(ok, calls, n), n, rest)) by {
        BatchesAreSound(ok, calls + n, 2 * n, remaining - n);
        ThenSound(ok, calls, base, n, remaining, rest);
      }
    } else {
      assert Batches(ok, calls, base, remaining) == Trace([], 0, false);
    }
  }

  // ---------------------------------------------------------------------------------------
  // The number of batches
  // ---------------------------------------------------------------------------------------

  function FloorLog2(n: nat): nat
    requires n > 0
  {
    if n == 1 then 0 else 1 + FloorLog2(n / 2)
  }

  function CeilDiv(n: nat, d: nat): nat
    requires d > 0
  {
    (n + d - 1) / d
  }

  /** `q` is the quotient of `n` and `d`, rounded up. */
  ghost predicate RoundsUp(n: nat, d: nat, q: nat) { (q - 1) * d < n <= q * d }

  lemma CeilDivRoundsUp(n: nat, d: nat)
    requires n > 0 && d > 0
    ensures CeilDiv(n, d) > 0 && RoundsUp(n, d, CeilDiv(n, d))
  {
    var q, r := (n + d - 1) / d, (n + d - 1) % d;
    assert n + d - 1 == q * d + r;
    assert q * d > 0;
    assert (q - 1) * d == q * d - d;
  }

  lemma Cancel(a: int, b: int, d: nat)
    requires a * d < b * d
    ensures a < b
  {
  }

  /** After a batch of `d` calls, the rest is measured in batches of twice the size. */
  lemma HalveQuotient(n: nat, d: nat, q: nat)
    requires 0 < d < n && RoundsUp(n, d, q)
    ensures q >= 2 && RoundsUp(n - d, 2 * d, q / 2)
  {
    Cancel(1, q, d);
    HalveProducts(q / 2, d);
    assert (q - 1) * d == q * d - d;
    assert q == 2 * (q / 2) || q == 2 * (q / 2) + 1;
  }

  lemma HalveProducts(h: nat, d: nat)
    ensures (h - 1) * (2 * d) == 2 * (h * d) - 2 * d && h * (2 * d) == 2 * (h * d)
    ensures (2 * h) * d == 2 * (h * d) && (2 * h + 1) * d == 2 * (h * d) + d
  {
  }

  /** Without failures there is one batch more than the logarithm of the number of initial batches. */
  lemma {:induction false} NumberOfBatches(ok: nat -> bool, calls: nat, base: nat, remaining: nat, q: nat)
    requires base > 0 && remaining > 0 && q > 0 && RoundsUp(remaining, base, q) && forall k :: ok(k)
    ensures |Batches(ok, calls, base, remaining).sizes| == 1 + FloorLog2(q)
    decreases remaining
  {
    var n := Min(base, remaining);
    AllSucceed(ok, calls, n);
    if remaining <= base {
      Cancel(q - 1, 1, base);
      assert Batches(ok, calls + n, 2 * n, remaining - n).sizes == [];
    } else {
      HalveQuotient(remaining, base, q);
      NumberOfBatches(ok, calls + n, 2 * n, remaining - n, q / 2);
    }
  }

  lemma {:induction false} AllSucceed(ok: nat -> bool, calls: nat, n: nat)
    requires forall k :: ok(k)
    ensures Successes(ok, calls, n) == n
  {
    if n > 0 { AllSucceed(ok, calls, n - 1); }
  }

  lemma {:induction false} NoneSucceeds(ok: nat -> bool, calls: nat, n: nat)
    requires forall k :: !ok(k)
    ensures Successes(ok, calls, n) == 0
  {
    if n > 0 { NoneSucceeds(ok, calls, n - 1); }
  }

  // ---------------------------------------------------------------------------------------
  // What the documentation says
  // ---------------------------------------------------------------------------------------

  /** Without failures, exactly `count` calls in 1 + floor(log2(ceil(count / initial))) batches. */
  lemma AllSucceedInLogBatches(ok: nat -> bool, count: nat, initial: nat)
    requires count > 0 && initial > 0 && forall k :: ok(k)
    ensures CeilDiv(count, initial) > 0
    ensures var t := SlowStart(ok, count, initial);
            && !t.failed && t.successes == Sum(t.sizes) == count
            && |t.sizes| == 1 + FloorLog2(CeilDiv(count, initial))
  {
    var t := SlowStart(ok, count, initial);
    CeilDivRoundsUp(count, initial);
    NumberOfBatches(ok, 0, initial, count, CeilDiv(count, initial));
    BatchesAreSound(ok, 0, initial, count);
    AllSucceed(ok, 0, Sum(t.sizes));
  }

  /** If every call fails, only min(count, initial) calls are made. */
  lemma DoomedCalls(ok: nat -> bool, count: nat, initial: nat)
    requires count > 0 && initial > 0 && forall k :: !ok(k)
    ensures var t := SlowStart(ok, count, initial);
            t.failed && t.successes == 0 && Sum(t.sizes) == Min(count, initial)
  {
    var n := Min(count, initial);
    NoneSucceeds(ok, 0, n);
    ThenSizes(0, n, Batches(ok, n, 2 * n, count - n));
  }

  /**
   Every run: the successes are those among the calls made, no call beyond `count` is made, all
   batches but the last succeed, and the last one, which may fail, is at most `initial` larger
   than the successes before it.
   */
  lemma FailingBatchIsBounded(ok: nat -> bool, count: nat, initial: nat)
    requires count > 0 && initial > 0
    ensures var t := SlowStart(ok, count, initial);
            && t.successes == Successes(ok, 0, Sum(t.sizes)) && Sum(t.sizes) <= count
            && (t.failed <==> t.successes < count) && (t.failed <==> t.successes < Sum(t.sizes))
            && t.sizes != []
            && var before := Sum(t.sizes[..|t.sizes| - 1]);
               before <= t.successes && t.sizes[|t.sizes| - 1] <= before + initial
  {
    var t := SlowStart(ok, count, initial);
    BatchesAreSound(ok, 0, initial, count);
    var j := |t.sizes| - 1;
    assert t.sizes != [];
    GrowsAt(t.sizes, initial, j);
    SumSnoc(t.sizes[..j], t.sizes[j]);
    assert t.sizes == t.sizes[..j] + [t.sizes[j]];
  }

  // ---------------------------------------------------------------------------------------
  // Creating replicas
  // ---------------------------------------------------------------------------------------

  const BURST_REPLICAS := 500
  const SLOW_START_INITIAL_BATCH_SIZE := 1

  /** The result of one creation. */
  datatype Creation = Created | NamespaceTerminating | Failed

  class Expectations {
    var adds: int
    var dels: int

    method ExpectCreations(n: int)
      modifies this
      ensures adds == n && dels == 0
    {
      adds, dels := n, 0;
    }

    method CreationObserved()
      modifies this
      ensures adds == old(adds) - 1 && dels == old(dels)
    {
      adds := adds - 1;
    }
  }

  /** How many of the first `n` creations have the result `r`. */
  function Count(create: nat -> Creation, n: nat, r: Creation): nat {
    if n == 0 then 0 else Count(create, n - 1, r) + if create(n - 1) == r then 1 else 0
  }

  function Accepted(create: nat -> Creation): nat -> bool { (k: nat) => create(k) != Failed }

  /** The number of replicas one synchronisation tries to create. */
  function Wanted(active: nat, replicas: int): int { Min(replicas - active, BURST_REPLICAS) }

  lemma {:induction false} AcceptedCount(create: nat -> Creation, n: nat)
    ensures Successes(Accepted(create), 0, n) == Count(create, n, Created) + Count(create, n, NamespaceTerminating)
  {
    if n > 0 { AcceptedCount(create, n - 1); }
  }

  /** What slow start reports as successes are the creations it got done and those given up because the namespace goes away. */
  lemma SuccessesAreCreations(create: nat -> Creation, n: nat, initial: nat, t: Trace)
    requires n > 0 && initial > 0 && t == SlowStart(Accepted(create), n, initial)
    ensures Sum(t.sizes) <= n && t.successes <= n
    ensures t.successes == Count(create, Sum(t.sizes), Created) + Count(create, Sum(t.sizes), NamespaceTerminating)
  {
    FailingBatchIsBounded(Accepted(create), n, initial);
    AcceptedCount(create, Sum(t.sizes));
  }

  /** If every creation succeeds, all are made. */
  lemma AllCreated(create: nat -> Creation, n: nat, initial: nat)
    requires n > 0 && initial > 0 && forall k :: create(k) == Created
    ensures var t := SlowStart(Accepted(create), n, initial);
            !t.failed && Sum(t.sizes) == n && Count(create, n, Created) == n && Count(create, n, NamespaceTerminating) == 0
  {
    AllSucceedInLogBatches(Accepted(create), n, initial);
    CountsAll(create, n);
  }

  lemma {:induction false} CountsAll(create: nat -> Creation, n: nat)
    requires forall k :: create(k) == Created
    ensures Count(create, n, Created) == n && Count(create, n, NamespaceTerminating) == 0
  {
    if n > 0 { CountsAll(create, n - 1); }
  }

  /** Creates `diff` replicas and expects to observe those that were reported as created. */
  method CreateReplicas(expectations: Expectations, diff: nat, initial: nat, create: nat -> Creation) returns (failed: bool, ghost t: Trace)
    requires diff > 0 && initial > 0
    modifies expectations
    ensures t == SlowStart(Accepted(create), diff, initial) && failed == t.failed && Sum(t.sizes) <= diff
    ensures expectations.adds == Count(create, Sum(t.sizes), Created) + Count(create, Sum(t.sizes), NamespaceTerminating)
    ensures expectations.dels == 0
  {
    expectations.ExpectCreations(diff);
    var successes: nat;
    ghost var sizes: seq<nat>;
    successes, failed, sizes := SlowStartBatch(diff, initial, Accepted(create));
    t := Trace(sizes, successes, failed);
    SuccessesAreCreations(create, diff, initial, t);
    var skipped := diff - successes;
    if skipped > 0 {
      for i := 0 to skipped
        invariant expectations.adds == diff - i && expectations.dels == 0
      {
        expectations.CreationObserved();
      }
    }
  }

  /** The create branch of manageReplicas, without observations in between; `t` is what slow start did. */
  method ManageReplicas(expectations: Expectations, active: nat, replicas: int, create: nat -> Creation) returns (failed: bool, ghost t: Trace)
    requires active < replicas
    modifies expectations
    ensures t == SlowStart(Accepted(create), Wanted(active, replicas), SLOW_START_INITIAL_BATCH_SIZE)
    ensures failed == t.failed && Sum(t.sizes) <= Wanted(active, replicas) <= BURST_REPLICAS
    ensures expectations.adds == Count(create, Sum(t.sizes), Created) + Count(create, Sum(t.sizes), NamespaceTerminating)
    ensures expectations.dels == 0
    ensures (forall k :: create(k) == Created) ==>
              !failed && Sum(t.sizes) == expectations.adds == (if replicas - active <= 500 then replicas - active else 500)
  {
    var diff := active - replicas;
    diff := -diff;
    if diff > BURST_REPLICAS {
      diff := BURST_REPLICAS;
    }
    failed, t := CreateReplicas(expectations, diff, SLOW_START_INITIAL_BATCH_SIZE, create);
    if forall k :: create(k) == Created { AllCreated(create, diff, SLOW_START_INITIAL_BATCH_SIZE); }
  }
}

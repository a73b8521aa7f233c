/**
 Writing table entries to a P4Runtime switch. The switch applies the updates of a write one by
 one, goes on after an error, and reports a code for each (section 12 of the P4Runtime
 Specification 1.3.0); the client turns refused insertions into modifications and writes again.
 */
module P4Write {
  import opened Basics

  // ---------------------------------------------------------------------------------------
  // The switch
  // ---------------------------------------------------------------------------------------

  /** A match key of a table, or a table's default action. */
  datatype Target = Key(table: nat, fields: nat) | Default(table: nat)

  type Action = nat

  datatype Entry = Entry(target: Target, action: Action)

  datatype Kind = Unspecified | Insert | Modify | Delete

  datatype Update = Update(kind: Kind, entry: Entry)

  datatype Code = OK | AlreadyExists | NotFound | InvalidArgument | Other

  type Tables = map<Target, Action>

  function Value(s: Tables, t: Target): Option<Action> { if t in s then Some(s[t]) else None }

  /**
   What an update makes of the value of its target, and the code. A default action can only be
   modified. `fault` is an error for another reason, which changes nothing.
   */
  function Next(v: Option<Action>, u: Update, fault: Code): (Option<Action>, Code) {
    if fault != OK then (v, fault)
    else if u.entry.target.Default? then
      if u.kind == Modify then (Some(u.entry.action), OK) else (v, InvalidArgument)
    else match u.kind
      case Unspecified => (v, InvalidArgument)
      case Insert => if v.None? then (Some(u.entry.action), OK) else (v, AlreadyExists)
      case Modify => if v.Some? then (Some(u.entry.action), OK) else (v, NotFound)
      case Delete => if v.Some? then (None, OK) else (v, NotFound)
  }

  function SetTo(s: Tables, t: Target, v: Option<Action>): Tables {
    if v.Some? then s[t := v.value] else s - {t}
  }

  function Apply(s: Tables, u: Update, fault: Code): Tables {
    SetTo(s, u.entry.target, Next(Value(s, u.entry.target), u, fault).0)
  }

  /** The tables after a write; `fault` tells the error of the n-th update, counting all writes. */
  function Written(s: Tables, us: seq<Update>, fault: nat -> Code, n: nat): Tables
    decreases |us|
  {
    if us == [] then s else Written(Apply(s, us[0], fault(n)), us[1..], fault, n + 1)
  }

  function Codes(s: Tables, us: seq<Update>, fault: nat -> Code, n: nat): (r: seq<Code>)
    ensures |r| == |us|
    decreases |us|
  {
    if us == [] then []
    else [Next(Value(s, us[0].entry.target), us[0], fault(n)).1] + Codes(Apply(s, us[0], fault(n)), us[1..], fault, n + 1)
  }

  lemma NextUpdate(s: Tables, us: seq<Update>, i: nat, fault: nat -> Code, n: nat, codes: seq<Code>)
    requires i < |us|
    ensures Written(s, us[i..], fault, n) == Written(Apply(s, us[i], fault(n)), us[i + 1..], fault, n + 1)
    ensures codes + Codes(s, us[i..], fault, n)
         == codes + [Next(Value(s, us[i].entry.target), us[i], fault(n)).1] + Codes(Apply(s, us[i], fault(n)), us[i + 1..], fault, n + 1)
  {
    assert us[i..][0] == us[i] && us[i..][1..] == us[i + 1..];
  }

  predicate AllOK(codes: seq<Code>) { forall i :: 0 <= i < |codes| ==> codes[i] == OK }

  /** `Lost` is an error without a code for each update. */
  datatype Response = Done | Failed(codes: seq<Code>) | Lost

  class P4Switch {
    const fault: nat -> Code
    const lost: nat -> bool
    var tables: Tables
    var updates: nat
    var calls: nat

    constructor (fault: nat -> Code, lost: nat -> bool, tables: Tables)
      ensures this.fault == fault && this.lost == lost && this.tables == tables && updates == calls == 0
    {
      this.fault, this.lost, this.tables, updates, calls := fault, lost, tables, 0, 0;
    }

    ghost function State(): SwitchState
      reads this
    {
      SwitchState(tables, updates, calls)
    }

    ghost function Oracle(): Faults { Faults(fault, lost) }

    /** One Write call. */
    method Write(us: seq<Update>) returns (r: Response)
      modifies this
      ensures tables == Written(old(tables), us, fault, old(updates)) && updates == old(updates) + |us| && calls == old(calls) + 1
      ensures var codes := Codes(old(tables), us, fault, old(updates));
              r == if lost(old(calls)) then Lost else if AllOK(codes) then Done else Failed(codes)
    {
      var codes := [];
      ghost var all, goal := Codes(tables, us, fault, updates), Written(tables, us, fault, updates);
      for i := 0 to |us|
        invariant updates == old(updates) + i && calls == old(calls)
        invariant goal == Written(tables, us[i..], fault, updates)
        invariant all == codes + Codes(tables, us[i..], fault, updates)
      {
        NextUpdate(tables, us, i, fault, updates, codes);
        codes := codes + [Next(Value(tables, us[i].entry.target), us[i], fault(updates)).1];
        tables := Apply(tables, us[i], fault(updates));
        updates := updates + 1;
      }
      assert all == codes;
      r := if lost(calls) then Lost else if AllOK(codes) then Done else Failed(codes);
      calls := calls + 1;
    }
  }

  // ---------------------------------------------------------------------------------------
  // What a write does to each target
  // ---------------------------------------------------------------------------------------

  ghost predicate Touches(us: seq<Update>, t: Target) { exists i :: 0 <= i < |us| && us[i].entry.target == t }

  ghost predicate DistinctTargets(us: seq<Update>) {
    forall i, j :: 0 <= i < j < |us| ==> us[i].entry.target != us[j].entry.target
  }

  lemma {:induction false} WrittenElsewhere(s: Tables, us: seq<Update>, fault: nat -> Code, n: nat, t: Target)
    requires !Touches(us, t)
    ensures Value(Written(s, us, fault, n), t) == Value(s, t)
    decreases |us|
  {
    if us != [] {
      assert us[0].entry.target != t;
      forall i | 0 <= i < |us[1..]| ensures us[1..][i].entry.target != t { assert us[1..][i] == us[i + 1]; }
      WrittenElsewhere(Apply(s, us[0], fault(n)), us[1..], fault, n + 1, t);
    }
  }

  /** With distinct targets each update finds its target as it was before the write, and leaves it as it will be after. */
  lemma {:induction false} WrittenAt(s: Tables, us: seq<Update>, fault: nat -> Code, n: nat, i: nat)
    requires DistinctTargets(us) && i < |us|
    ensures var t := us[i].entry.target;
            (Value(Written(s, us, fault, n), t), Codes(s, us, fault, n)[i]) == Next(Value(s, t), us[i], fault(n + i))
    decreases |us|
  {
    var s' := Apply(s, us[0], fault(n));
    assert forall j :: 0 <= j < |us[1..]| ==> us[1..][j] == us[j + 1];
    if i == 0 {
      WrittenElsewhere(s', us[1..], fault, n + 1, us[0].entry.target);
    } else {
      WrittenAt(s', us[1..], fault, n + 1, i - 1);
    }
  }

  lemma SameTables(a: Tables, b: Tables)
    requires forall t :: Value(a, t) == Value(b, t)
    ensures a == b
  {
    forall t ensures t in a <==> t in b { assert Value(a, t) == Value(b, t); }
    forall t | t in a ensures a[t] == b[t] { assert Value(a, t) == Value(b, t); }
  }

  // ---------------------------------------------------------------------------------------
  // ApplyUpdates
  // ---------------------------------------------------------------------------------------

  predicate Retryable(u: Update, c: Code) { c == OK || (c == AlreadyExists && u.kind == Insert) }

  /** The refused insertions, as modifications. */
  function Retries(us: seq<Update>, codes: seq<Code>): seq<Update>
    requires |us| == |codes|
  {
    if us == [] then []
    else (if codes[0] == AlreadyExists then [us[0].(kind := Modify)] else []) + Retries(us[1..], codes[1..])
  }

  method ModifyRetriesForExistingEntries(us: seq<Update>, r: Response) returns (retries: seq<Update>, ok: bool)
    ensures ok <==>
              && r.Failed? && |r.codes| == |us|
              && (forall i :: 0 <= i < |us| ==> r.codes[i] == OK || (r.codes[i] == AlreadyExists && us[i].kind == Insert))
              && (exists i :: 0 <= i < |us| && r.codes[i] == AlreadyExists)
    ensures ok ==> retries == Retries(us, r.codes) && retries != []
  {
    if !r.Failed? || |r.codes| != |us| {
      return [], false;
    }
    retries := [];
    ghost var goal := Retries(us, r.codes);
    for i := 0 to |us|
      invariant goal == retries + Retries(us[i..], r.codes[i..])
      invariant forall j :: 0 <= j < i ==> r.codes[j] == OK || (r.codes[j] == AlreadyExists && us[j].kind == Insert)
    {
      assert us[i..][0] == us[i] && us[i..][1..] == us[i + 1..];
      assert r.codes[i..][0] == r.codes[i] && r.codes[i..][1..] == r.codes[i + 1..];
      if r.codes[i] == AlreadyExists {
        if us[i].kind != Insert {
          return [], false;
        }
        retries := retries + [us[i].(kind := Modify)];
      } else if r.codes[i] != OK {
        return [], false;
      }
    }
    ok := |retries| > 0;
    assert retries == goal;
    RetriesNonEmpty(us, r.codes);
  }

  lemma RetriesNonEmpty(us: seq<Update>, codes: seq<Code>)
    requires |us| == |codes|
    ensures Retries(us, codes) != [] <==> exists i :: 0 <= i < |us| && codes[i] == AlreadyExists
  {
    if Retries(us, codes) != [] { var i := RetryStems(us, codes, 0); }
    if i :| 0 <= i < |us| && codes[i] == AlreadyExists { var k := RetryOf(us, codes, i); }
  }

  /** An update read as it is meant: an insertion sets the entry whether or not it exists. */
  function Upsert(s: Tables, u: Update): Tables {
    if u.kind == Delete then s - {u.entry.target} else s[u.entry.target := u.entry.action]
  }

  /** The updates one after the other. */
  function UpsertAll(s: Tables, us: seq<Update>): Tables
    decreases |us|
  {
    if us == [] then s else UpsertAll(Upsert(s, us[0]), us[1..])
  }

  /** Every error of a write is an insertion of an existing entry. */
  ghost predicate AllRetryable(us: seq<Update>, codes: seq<Code>) {
    |us| == |codes| && forall i :: 0 <= i < |us| ==> Retryable(us[i], codes[i])
  }

  /** What ApplyUpdates leads to: the tables, and whether it succeeds; `lost1` and `lost2` tell if a response is lost. */
  ghost function Applied(s: Tables, us: seq<Update>, fault: nat -> Code, n: nat, lost1: bool, lost2: bool): (Tables, bool) {
    var s1, codes := Written(s, us, fault, n), Codes(s, us, fault, n);
    if lost1 || AllOK(codes) || !AllRetryable(us, codes) then (s1, !lost1 && AllOK(codes))
    else
      var retries := Retries(us, codes);
      (Written(s1, retries, fault, n + |us|), !lost2 && AllOK(Codes(s1, retries, fault, n + |us|)))
  }

  method ApplyUpdates(switch: P4Switch, us: seq<Update>) returns (ok: bool)
    modifies switch
    ensures (switch.tables, ok)
         == Applied(old(switch.tables), us, switch.fault, old(switch.updates), switch.lost(old(switch.calls)), switch.lost(old(switch.calls) + 1))
  {
    ghost var s, n := switch.tables, switch.updates;
    var r := switch.Write(us);
    if r.Done? {
      return true;
    }
    var retries, retry := ModifyRetriesForExistingEntries(us, r);
    if !retry {
      if r.Failed? { SomeRetry(us, r.codes); }
      return false;
    }
    var r2 := switch.Write(retries);
    ok := r2.Done?;
  }

  lemma SomeRetry(us: seq<Update>, codes: seq<Code>)
    requires |us| == |codes| && !AllOK(codes)
    ensures AllRetryable(us, codes) ==> Retries(us, codes) != []
  {
    if AllRetryable(us, codes) {
      var i :| 0 <= i < |codes| && codes[i] != OK;
      var k := RetryOf(us, codes, i);
    }
  }

  /**
   A successful ApplyUpdates does exactly what the updates mean, one after the other, if their
   targets are distinct or nothing had to be retried.
   */
  lemma {:induction false} ApplyUpdatesIsUpsert(s: Tables, us: seq<Update>, fault: nat -> Code, n: nat, lost1: bool, lost2: bool)
    requires DistinctTargets(us) || AllOK(Codes(s, us, fault, n))
    requires Applied(s, us, fault, n, lost1, lost2).1
    ensures Applied(s, us, fault, n, lost1, lost2).0 == UpsertAll(s, us)
  {
    if AllOK(Codes(s, us, fault, n)) { WriteIsUpsert(s, us, fault, n); } else { RetryIsUpsert(s, us, fault, n, n + |us|); }
  }

  /** What the switch allows: default actions are only modified, and what is modified or deleted exists. */
  predicate Allowed(s: Tables, u: Update) {
    if u.entry.target.Default? then u.kind == Modify
    else u.kind == Insert || (u.kind != Unspecified && u.entry.target in s)
  }

  /** On distinct targets, and if nothing else goes wrong, ApplyUpdates succeeds exactly if every update is allowed. */
  lemma ApplyUpdatesSucceeds(s: Tables, us: seq<Update>, fault: nat -> Code, n: nat)
    requires DistinctTargets(us) && forall k :: fault(k) == OK
    ensures Applied(s, us, fault, n, false, false).1 <==> forall i :: 0 <= i < |us| ==> Allowed(s, us[i])
  {
    var codes := Codes(s, us, fault, n);
    forall i | 0 <= i < |us| ensures Retryable(us[i], codes[i]) <==> Allowed(s, us[i]) {
      WrittenAt(s, us, fault, n, i);
    }
    if AllRetryable(us, codes) { RetrySucceeds(s, us, fault, n); }
  }

  lemma RetrySucceeds(s: Tables, us: seq<Update>, fault: nat -> Code, n: nat)
    requires DistinctTargets(us) && AllRetryable(us, Codes(s, us, fault, n)) && forall k :: fault(k) == OK
    ensures AllOK(Codes(Written(s, us, fault, n), Retries(us, Codes(s, us, fault, n)), fault, n + |us|))
  {
    var codes, s1 := Codes(s, us, fault, n), Written(s, us, fault, n);
    var retries := Retries(us, codes);
    RetriesDistinct(us, codes);
    var again := Codes(s1, retries, fault, n + |us|);
    forall k | 0 <= k < |retries| ensures again[k] == OK {
      var i := RetryStems(us, codes, k);
      WrittenAt(s, us, fault, n, i);
      WrittenAt(s1, retries, fault, n + |us|, k);
    }
  }

  // ---------------------------------------------------------------------------------------
  // Repeated targets
  // ---------------------------------------------------------------------------------------

  /** Update number `i` inserts an entry that the updates before it leave existing. */
  predicate Refused(s: Tables, us: seq<Update>, i: nat)
    requires i < |us|
  {
    us[i].kind == Insert && us[i].entry.target in UpsertAll(s, us[..i])
  }

  ghost predicate LastRefused(s: Tables, us: seq<Update>, i: nat) {
    && i < |us| && Refused(s, us, i)
    && forall j :: i < j < |us| && us[j].entry.target == us[i].entry.target ==> !Refused(s, us, j)
  }

  ghost predicate LastUpdate(us: seq<Update>, i: nat) {
    i < |us| && forall j :: i < j < |us| ==> us[j].entry.target != us[i].entry.target
  }

  /** Of every target, the last insertion that is refused and the last update carry the same action. */
  ghost predicate RefusalsAgree(s: Tables, us: seq<Update>) {
    forall i: nat, l: nat :: LastRefused(s, us, i) && LastUpdate(us, l) && us[l].entry.target == us[i].entry.target ==>
      us[l].entry.action == us[i].entry.action
  }

  /** Two tables with the same entries, perhaps with different actions. */
  ghost predicate SameEntries(w: Tables, u: Tables) { forall t :: t in w <==> t in u }

  lemma RetryableTail(w: Tables, us: seq<Update>, fault: nat -> Code, n: nat)
    requires us != [] && AllRetryable(us, Codes(w, us, fault, n))
    ensures Retryable(us[0], Next(Value(w, us[0].entry.target), us[0], fault(n)).1)
    ensures AllRetryable(us[1..], Codes(Apply(w, us[0], fault(n)), us[1..], fault, n + 1))
  {
    var codes, rest := Codes(w, us, fault, n), Codes(Apply(w, us[0], fault(n)), us[1..], fault, n + 1);
    forall i | 0 <= i < |rest| ensures Retryable(us[1..][i], rest[i]) {
      assert us[1..][i] == us[i + 1] && rest[i] == codes[i + 1] && Retryable(us[i + 1], codes[i + 1]);
    }
    assert Retryable(us[0], codes[0]);
  }

  /** One update keeps the entries the same, and it is refused exactly if its insertion finds the entry. */
  lemma SameEntriesStep(w: Tables, u: Tables, up: Update)
    requires SameEntries(w, u) && Retryable(up, Next(Value(w, up.entry.target), up, OK).1)
    ensures SameEntries(Apply(w, up, OK), Upsert(u, up))
    ensures Next(Value(w, up.entry.target), up, OK).1 == AlreadyExists <==> up.kind == Insert && up.entry.target in u
    ensures forall t :: Value(w, t) == Value(u, t) && (t == up.entry.target ==> Next(Value(w, t), up, OK).1 != AlreadyExists) ==>
              Value(Apply(w, up, OK), t) == Value(Upsert(u, up), t)
  {
  }

  lemma UpsertTake(u: Tables, us: seq<Update>, i: nat)
    requires i < |us|
    ensures UpsertAll(u, us[..i + 1]) == UpsertAll(Upsert(u, us[0]), us[1..][..i])
  {
    assert us[..i + 1][1..] == us[1..][..i];
  }

  /** If all errors of a write are refused insertions, these are the ones that Refused tells. */
  lemma {:induction false} RefusedIff(w: Tables, u: Tables, us: seq<Update>, fault: nat -> Code, n: nat, i: nat)
    requires SameEntries(w, u) && AllRetryable(us, Codes(w, us, fault, n)) && i < |us| && forall k :: fault(k) == OK
    ensures Codes(w, us, fault, n)[i] == AlreadyExists <==> Refused(u, us, i)
    decreases |us|
  {
    RetryableTail(w, us, fault, n);
    SameEntriesStep(w, u, us[0]);
    if i == 0 {
      assert us[..0] == [];
    } else {
      RefusedIff(Apply(w, us[0], fault(n)), Upsert(u, us[0]), us[1..], fault, n + 1, i - 1);
      UpsertTake(u, us, i - 1);
    }
  }

  /** Where no insertion is refused, the write does what the updates mean. */
  lemma {:induction false} UnrefusedValue(w: Tables, u: Tables, us: seq<Update>, fault: nat -> Code, n: nat, t: Target)
    requires SameEntries(w, u) && Value(w, t) == Value(u, t) && forall k :: fault(k) == OK
    requires AllRetryable(us, Codes(w, us, fault, n))
    requires forall i :: 0 <= i < |us| && us[i].entry.target == t ==> Codes(w, us, fault, n)[i] != AlreadyExists
    ensures Value(Written(w, us, fault, n), t) == Value(UpsertAll(u, us), t)
    decreases |us|
  {
    if us != [] {
      var w', u', rest := Apply(w, us[0], fault(n)), Upsert(u, us[0]), us[1..];
      RetryableTail(w, us, fault, n);
      SameEntriesStep(w, u, us[0]);
      assert us[0].entry.target == t ==> Codes(w, us, fault, n)[0] != AlreadyExists;
      forall i | 0 <= i < |rest| && rest[i].entry.target == t ensures Codes(w', rest, fault, n + 1)[i] != AlreadyExists {
        assert us[i + 1].entry.target == t;
      }
      UnrefusedValue(w', u', rest, fault, n + 1, t);
    }
  }

  /** The retries set a target to the action of its last refused insertion. */
  lemma {:induction false} RetriesValue(v: Tables, us: seq<Update>, codes: seq<Code>, i: nat)
    requires |us| == |codes| && i < |us| && codes[i] == AlreadyExists
    requires forall j :: i < j < |us| && us[j].entry.target == us[i].entry.target ==> codes[j] != AlreadyExists
    ensures Value(UpsertAll(v, Retries(us, codes)), us[i].entry.target) == Some(us[i].entry.action)
    decreases |us|
  {
    var t, rest, codes' := us[i].entry.target, us[1..], codes[1..];
    var head := if codes[0] == AlreadyExists then [us[0].(kind := Modify)] else [];
    var v' := if codes[0] == AlreadyExists then Upsert(v, us[0].(kind := Modify)) else v;
    assert Retries(us, codes) == head + Retries(rest, codes');
    UpsertHead(v, us, codes);
    if i == 0 {
      forall k | 0 <= k < |Retries(rest, codes')| ensures Retries(rest, codes')[k].entry.target != t {
        var j := RetryStems(rest, codes', k);
        assert us[j + 1] == rest[j] && codes[j + 1] == codes'[j];
      }
      UpsertElsewhere(v', Retries(rest, codes'), t);
    } else {
      forall j | i - 1 < j < |rest| && rest[j].entry.target == t ensures codes'[j] != AlreadyExists {
        assert us[j + 1].entry.target == t;
      }
      RetriesValue(v', rest, codes', i - 1);
    }
  }

  lemma UpsertHead(v: Tables, us: seq<Update>, codes: seq<Code>)
    requires |us| == |codes| && us != []
    ensures UpsertAll(v, Retries(us, codes))
         == UpsertAll(if codes[0] == AlreadyExists then Upsert(v, us[0].(kind := Modify)) else v, Retries(us[1..], codes[1..]))
  {
    var r := us[0].(kind := Modify);
    if codes[0] == AlreadyExists {
      assert Retries(us, codes)[0] == r && Retries(us, codes)[1..] == Retries(us[1..], codes[1..]);
    } else {
      assert Retries(us, codes) == Retries(us[1..], codes[1..]);
    }
  }

  /** The last update of a target decides what the updates mean for it. */
  lemma {:induction false} LastUpdateValue(s: Tables, us: seq<Update>, l: nat)
    requires LastUpdate(us, l)
    ensures Value(UpsertAll(s, us), us[l].entry.target) == if us[l].kind == Delete then None else Some(us[l].entry.action)
    decreases |us|
  {
    assert forall j :: 0 <= j < |us[1..]| ==> us[1..][j] == us[j + 1];
    if l == 0 {
      UpsertElsewhere(Upsert(s, us[0]), us[1..], us[0].entry.target);
    } else {
      LastUpdateValue(Upsert(s, us[0]), us[1..], l - 1);
    }
  }

  lemma TailCodes(s: Tables, us: seq<Update>, fault: nat -> Code, n: nat)
    requires us != [] && AllOK(Codes(s, us, fault, n))
    ensures Next(Value(s, us[0].entry.target), us[0], fault(n)).1 == OK
    ensures AllOK(Codes(Apply(s, us[0], fault(n)), us[1..], fault, n + 1))
  {
    var codes, rest := Codes(s, us, fault, n), Codes(Apply(s, us[0], fault(n)), us[1..], fault, n + 1);
    assert codes[0] == OK && forall i :: 0 <= i < |rest| ==> rest[i] == codes[i + 1];
  }

  lemma {:induction false} WrittenSameEntries(w: Tables, u: Tables, us: seq<Update>, fault: nat -> Code, n: nat)
    requires SameEntries(w, u) && AllRetryable(us, Codes(w, us, fault, n)) && forall k :: fault(k) == OK
    ensures SameEntries(Written(w, us, fault, n), UpsertAll(u, us))
    decreases |us|
  {
    if us != [] {
      RetryableTail(w, us, fault, n);
      SameEntriesStep(w, u, us[0]);
      WrittenSameEntries(Apply(w, us[0], fault(n)), Upsert(u, us[0]), us[1..], fault, n + 1);
    }
  }

  /** A modification that succeeds found its entry, and modifications before it created none. */
  lemma {:induction false} ModifiedExists(s: Tables, us: seq<Update>, fault: nat -> Code, n: nat, k: nat)
    requires AllOK(Codes(s, us, fault, n)) && k < |us| && us[k].entry.target.Key?
    requires forall i :: 0 <= i < |us| ==> us[i].kind == Modify
    ensures us[k].entry.target in s
    decreases |us|
  {
    TailCodes(s, us, fault, n);
    if k > 0 {
      ModifiedExists(Apply(s, us[0], fault(n)), us[1..], fault, n + 1, k - 1);
    }
  }

  lemma LastUpdateExists(us: seq<Update>, i: nat) returns (l: nat)
    requires i < |us|
    ensures LastUpdate(us, l) && us[l].entry.target == us[i].entry.target
  {
    l := |us| - 1;
    while us[l].entry.target != us[i].entry.target
      invariant i <= l < |us| && forall j :: l < j < |us| ==> us[j].entry.target != us[i].entry.target
      decreases l
    {
      l := l - 1;
    }
  }

  lemma LastRefusedExists(s: Tables, us: seq<Update>, i: nat) returns (l: nat)
    requires i < |us| && Refused(s, us, i)
    ensures LastRefused(s, us, l) && us[l].entry.target == us[i].entry.target
  {
    l := |us| - 1;
    while us[l].entry.target != us[i].entry.target || !Refused(s, us, l)
      invariant i <= l < |us|
      invariant forall j :: l < j < |us| && us[j].entry.target == us[i].entry.target ==> !Refused(s, us, j)
      decreases l
    {
      l := l - 1;
    }
  }

  /** The tables that a retry leads to, at a target of which an insertion was refused: `i` is the last such insertion. */
  lemma RetriedValue(s: Tables, us: seq<Update>, fault: nat -> Code, n: nat, m: nat, i: nat, l: nat)
    requires AllRetryable(us, Codes(s, us, fault, n)) && (forall k :: fault(k) == OK)
    requires AllOK(Codes(Written(s, us, fault, n), Retries(us, Codes(s, us, fault, n)), fault, m))
    requires LastRefused(s, us, i) && LastUpdate(us, l) && us[l].entry.target == us[i].entry.target
    ensures Value(Written(Written(s, us, fault, n), Retries(us, Codes(s, us, fault, n)), fault, m), us[i].entry.target) == Some(us[i].entry.action)
    ensures Value(UpsertAll(s, us), us[i].entry.target) == Some(us[l].entry.action)
  {
    var codes, s1, t := Codes(s, us, fault, n), Written(s, us, fault, n), us[i].entry.target;
    var retries := Retries(us, codes);
    RefusedIff(s, s, us, fault, n, i);
    forall j | i < j < |us| && us[j].entry.target == t ensures codes[j] != AlreadyExists {
      RefusedIff(s, s, us, fault, n, j);
    }
    WriteIsUpsert(s1, retries, fault, m);
    RetriesValue(s1, us, codes, i);
    RetriedExists(s, us, fault, n, m, i);
    WrittenSameEntries(s, s, us, fault, n);
    LastUpdateValue(s, us, l);
    assert t in UpsertAll(s, us);
  }

  /** An insertion that was refused and then retried with success is of an entry that exists after the first write. */
  lemma RetriedExists(s: Tables, us: seq<Update>, fault: nat -> Code, n: nat, m: nat, i: nat)
    requires i < |us| && Codes(s, us, fault, n)[i] == AlreadyExists && (forall k :: fault(k) == OK)
    requires AllOK(Codes(Written(s, us, fault, n), Retries(us, Codes(s, us, fault, n)), fault, m))
    ensures us[i].entry.target in Written(s, us, fault, n)
  {
    var codes, s1 := Codes(s, us, fault, n), Written(s, us, fault, n);
    var k := RetryOf(us, codes, i);
    forall j | 0 <= j < |Retries(us, codes)| ensures Retries(us, codes)[j].kind == Modify {
      var stem := RetryStems(us, codes, j);
    }
    RefusedIsKey(s, us, fault, n, i);
    ModifiedExists(s1, Retries(us, codes), fault, m, k);
  }

  lemma {:induction false} RefusedIsKey(s: Tables, us: seq<Update>, fault: nat -> Code, n: nat, i: nat)
    requires i < |us| && Codes(s, us, fault, n)[i] == AlreadyExists && (forall k :: fault(k) == OK)
    ensures us[i].entry.target.Key?
    decreases |us|
  {
    if i > 0 { RefusedIsKey(Apply(s, us[0], fault(n)), us[1..], fault, n + 1, i - 1); }
  }

  /** At a target of which no insertion was refused, the retry changes nothing. */
  lemma UnretriedValue(s: Tables, us: seq<Update>, fault: nat -> Code, n: nat, m: nat, t: Target)
    requires AllRetryable(us, Codes(s, us, fault, n)) && (forall k :: fault(k) == OK)
    requires forall i :: 0 <= i < |us| && us[i].entry.target == t ==> !Refused(s, us, i)
    ensures Value(Written(Written(s, us, fault, n), Retries(us, Codes(s, us, fault, n)), fault, m), t) == Value(UpsertAll(s, us), t)
  {
    var codes, s1 := Codes(s, us, fault, n), Written(s, us, fault, n);
    forall i | 0 <= i < |us| && us[i].entry.target == t ensures codes[i] != AlreadyExists {
      RefusedIff(s, s, us, fault, n, i);
    }
    UnrefusedValue(s, s, us, fault, n, t);
    forall k | 0 <= k < |Retries(us, codes)| ensures Retries(us, codes)[k].entry.target != t {
      var j := RetryStems(us, codes, k);
    }
    WrittenElsewhere(s1, Retries(us, codes), fault, m, t);
  }

  /** The exact condition for a successful retry. */
  lemma RetryIsUpsertIff(s: Tables, us: seq<Update>, fault: nat -> Code, n: nat, m: nat)
    requires AllRetryable(us, Codes(s, us, fault, n)) && (forall k :: fault(k) == OK)
    requires AllOK(Codes(Written(s, us, fault, n), Retries(us, Codes(s, us, fault, n)), fault, m))
    ensures Written(Written(s, us, fault, n), Retries(us, Codes(s, us, fault, n)), fault, m) == UpsertAll(s, us) <==> RefusalsAgree(s, us)
  {
    var end := Written(Written(s, us, fault, n), Retries(us, Codes(s, us, fault, n)), fault, m);
    if end == UpsertAll(s, us) {
      forall i: nat, l: nat | LastRefused(s, us, i) && LastUpdate(us, l) && us[l].entry.target == us[i].entry.target
        ensures us[l].entry.action == us[i].entry.action
      {
        RetriedValue(s, us, fault, n, m, i, l);
      }
    }
    if RefusalsAgree(s, us) {
      forall t ensures Value(end, t) == Value(UpsertAll(s, us), t) {
        if i :| 0 <= i < |us| && us[i].entry.target == t && Refused(s, us, i) {
          var r := LastRefusedExists(s, us, i);
          var l := LastUpdateExists(us, i);
          RetriedValue(s, us, fault, n, m, r, l);
        } else {
          UnretriedValue(s, us, fault, n, m, t);
        }
      }
      SameTables(end, UpsertAll(s, us));
    }
  }

  /**
   If nothing else goes wrong, a successful ApplyUpdates, with any repetition of targets, does
   exactly what the updates mean if and only if, of every target, the last insertion that finds
   its entry carries the same action as the last update.
   */
  lemma {:induction false} ApplyUpdatesIsUpsertIff(s: Tables, us: seq<Update>, fault: nat -> Code, n: nat, lost1: bool, lost2: bool)
    requires Applied(s, us, fault, n, lost1, lost2).1 && forall k :: fault(k) == OK
    ensures Applied(s, us, fault, n, lost1, lost2).0 == UpsertAll(s, us) <==> RefusalsAgree(s, us)
  {
    if AllOK(Codes(s, us, fault, n)) {
      NothingRefused(s, us, fault, n);
    } else {
      AppliedIsRetry(s, us, fault, n, lost1, lost2);
      RetryIsUpsertIff(s, us, fault, n, n + |us|);
    }
  }

  lemma {:induction false} NothingRefused(s: Tables, us: seq<Update>, fault: nat -> Code, n: nat)
    requires AllOK(Codes(s, us, fault, n)) && forall k :: fault(k) == OK
    ensures RefusalsAgree(s, us) && Written(s, us, fault, n) == UpsertAll(s, us)
  {
    WriteIsUpsert(s, us, fault, n);
    forall i | 0 <= i < |us| ensures !Refused(s, us, i) { RefusedIff(s, s, us, fault, n, i); }
  }

  /** A success that is not that of the first write is that of the retry. */
  lemma {:induction false} AppliedIsRetry(s: Tables, us: seq<Update>, fault: nat -> Code, n: nat, lost1: bool, lost2: bool)
    requires Applied(s, us, fault, n, lost1, lost2).1 && !AllOK(Codes(s, us, fault, n))
    ensures AllRetryable(us, Codes(s, us, fault, n))
    ensures var s1, retries := Written(s, us, fault, n), Retries(us, Codes(s, us, fault, n));
            && AllOK(Codes(s1, retries, fault, n + |us|))
            && Applied(s, us, fault, n, lost1, lost2).0 == Written(s1, retries, fault, n + |us|)
  {
  }

  /** Distinct targets meet the condition. */
  lemma DistinctAgree(s: Tables, us: seq<Update>)
    requires DistinctTargets(us)
    ensures RefusalsAgree(s, us)
  {
    forall i: nat, l: nat | LastRefused(s, us, i) && LastUpdate(us, l) && us[l].entry.target == us[i].entry.target
      ensures us[l].entry.action == us[i].entry.action
    {
      assert i == l;
    }
  }

  /** A repeated target can break it: modifying an entry after inserting it again is undone by the retry. */
  lemma RepeatedTargetDiffers(t: Target, a: Action, b: Action, before: Action, fault: nat -> Code, n: nat)
    requires t.Key? && a != b && forall k :: fault(k) == OK
    ensures var s, us := map[t := before], [Update(Insert, Entry(t, a)), Update(Modify, Entry(t, b))];
            && Applied(s, us, fault, n, false, false) == (map[t := a], true)
            && UpsertAll(s, us) == map[t := b]
  {
    var s: Tables, u, v := map[t := before], Update(Insert, Entry(t, a)), Update(Modify, Entry(t, b));
    var us := [u, v];
    assert us[1..] == [v] && [v][1..] == [];
    var s1: Tables := map[t := b];
    assert Apply(s, u, OK) == s && Apply(s, v, OK) == s1;
    assert Written(s, us, fault, n) == Written(s, [v], fault, n + 1) == s1;
    assert Codes(s, [v], fault, n + 1) == [OK] + Codes(s1, [], fault, n + 2);
    assert Codes(s, us, fault, n) == [AlreadyExists, OK];
    assert [AlreadyExists, OK][1..] == [OK] && [OK][1..] == [];
    var w := Update(Modify, Entry(t, a));
    assert Retries([v], [OK]) == [] + Retries([], []);
    assert Retries(us, [AlreadyExists, OK]) == [w];
    assert [w][1..] == [];
    assert Written(s1, [w], fault, n + 2) == Written(Apply(s1, w, OK), [], fault, n + 3);
    assert Codes(s1, [w], fault, n + 2) == [OK] + Codes(Apply(s1, w, OK), [], fault, n + 3);
    assert UpsertAll(s, us) == UpsertAll(Upsert(s, u), [v]) == Upsert(Upsert(s, u), v);
    var codes := [AlreadyExists, OK];
    assert codes[0] != OK && AllRetryable(us, codes) && |us| == 2;
    assert Applied(s, us, fault, n, false, false) == (Written(s1, [w], fault, n + 2), AllOK(Codes(s1, [w], fault, n + 2)));
    assert Apply(s1, w, OK) == map[t := a] && Upsert(Upsert(s, u), v) == map[t := b];
  }

  lemma {:induction false} UpsertElsewhere(s: Tables, us: seq<Update>, t: Target)
    requires !Touches(us, t)
    ensures Value(UpsertAll(s, us), t) == Value(s, t)
    decreases |us|
  {
    if us != [] {
      assert us[0].entry.target != t;
      forall i | 0 <= i < |us[1..]| ensures us[1..][i].entry.target != t { assert us[1..][i] == us[i + 1]; }
      UpsertElsewhere(Upsert(s, us[0]), us[1..], t);
    }
  }

  lemma {:induction false} UpsertAt(s: Tables, us: seq<Update>, i: nat)
    requires DistinctTargets(us) && i < |us|
    ensures Value(UpsertAll(s, us), us[i].entry.target) == if us[i].kind == Delete then None else Some(us[i].entry.action)
    decreases |us|
  {
    assert forall j :: 0 <= j < |us[1..]| ==> us[1..][j] == us[j + 1];
    if i == 0 {
      UpsertElsewhere(Upsert(s, us[0]), us[1..], us[0].entry.target);
    } else {
      UpsertAt(Upsert(s, us[0]), us[1..], i - 1);
    }
  }

  /** Every retry stems from a refused insertion of the same entry. */
  lemma {:induction false} RetryStems(us: seq<Update>, codes: seq<Code>, k: nat) returns (i: nat)
    requires |us| == |codes| && k < |Retries(us, codes)|
    ensures i < |us| && codes[i] == AlreadyExists && Retries(us, codes)[k] == us[i].(kind := Modify)
    decreases |us|
  {
    var head := if codes[0] == AlreadyExists then [us[0].(kind := Modify)] else [];
    if k < |head| {
      i := 0;
    } else {
      i := RetryStems(us[1..], codes[1..], k - |head|);
      i := i + 1;
    }
  }

  lemma {:induction false} RetryOf(us: seq<Update>, codes: seq<Code>, i: nat) returns (k: nat)
    requires |us| == |codes| && i < |us| && codes[i] == AlreadyExists
    ensures k < |Retries(us, codes)| && Retries(us, codes)[k] == us[i].(kind := Modify)
    decreases |us|
  {
    if i == 0 {
      k := 0;
    } else {
      k := RetryOf(us[1..], codes[1..], i - 1);
      if codes[0] == AlreadyExists { k := k + 1; }
    }
  }

  lemma {:induction false} RetriesDistinct(us: seq<Update>, codes: seq<Code>)
    requires |us| == |codes| && DistinctTargets(us)
    ensures DistinctTargets(Retries(us, codes))
    decreases |us|
  {
    if us != [] {
      assert forall j :: 0 <= j < |us[1..]| ==> us[1..][j] == us[j + 1];
      var rest := Retries(us[1..], codes[1..]);
      RetriesDistinct(us[1..], codes[1..]);
      forall k | 0 <= k < |rest| ensures rest[k].entry.target != us[0].entry.target {
        var i := RetryStems(us[1..], codes[1..], k);
      }
    }
  }

  /** A write without errors does what the updates mean. */
  lemma {:induction false} WriteIsUpsert(s: Tables, us: seq<Update>, fault: nat -> Code, n: nat)
    requires AllOK(Codes(s, us, fault, n))
    ensures Written(s, us, fault, n) == UpsertAll(s, us)
    decreases |us|
  {
    if us != [] {
      var codes, rest := Codes(s, us, fault, n), Codes(Apply(s, us[0], fault(n)), us[1..], fault, n + 1);
      assert codes[0] == OK && forall i :: 0 <= i < |rest| ==> rest[i] == codes[i + 1];
      assert Apply(s, us[0], fault(n)) == Upsert(s, us[0]);
      WriteIsUpsert(Upsert(s, us[0]), us[1..], fault, n + 1);
    }
  }

  /** One target after a write whose refused insertions were then written as modifications. */
  lemma RetryAt(s: Tables, us: seq<Update>, fault: nat -> Code, n: nat, m: nat, i: nat)
    requires DistinctTargets(us) && i < |us|
    requires forall j :: 0 <= j < |us| ==> Retryable(us[j], Codes(s, us, fault, n)[j])
    requires AllOK(Codes(Written(s, us, fault, n), Retries(us, Codes(s, us, fault, n)), fault, m))
    ensures Value(Written(Written(s, us, fault, n), Retries(us, Codes(s, us, fault, n)), fault, m), us[i].entry.target)
         == if us[i].kind == Delete then None else Some(us[i].entry.action)
  {
    var codes, s1, t := Codes(s, us, fault, n), Written(s, us, fault, n), us[i].entry.target;
    var retries := Retries(us, codes);
    WrittenAt(s, us, fault, n, i);
    if codes[i] == AlreadyExists {
      var k := RetryOf(us, codes, i);
      RetriesDistinct(us, codes);
      WrittenAt(s1, retries, fault, m, k);
    } else {
      forall k | 0 <= k < |retries| ensures retries[k].entry.target != t {
        var j := RetryStems(us, codes, k);
      }
      WrittenElsewhere(s1, retries, fault, m, t);
    }
  }

  /** A write with refused insertions, followed by a successful retry, does what the updates mean. */
  lemma RetryIsUpsert(s: Tables, us: seq<Update>, fault: nat -> Code, n: nat, m: nat)
    requires DistinctTargets(us)
    requires forall j :: 0 <= j < |us| ==> Retryable(us[j], Codes(s, us, fault, n)[j])
    requires AllOK(Codes(Written(s, us, fault, n), Retries(us, Codes(s, us, fault, n)), fault, m))
    ensures Written(Written(s, us, fault, n), Retries(us, Codes(s, us, fault, n)), fault, m) == UpsertAll(s, us)
  {
    var retries, s1 := Retries(us, Codes(s, us, fault, n)), Written(s, us, fault, n);
    forall t ensures Value(Written(s1, retries, fault, m), t) == Value(UpsertAll(s, us), t) {
      if Touches(us, t) {
        var i :| 0 <= i < |us| && us[i].entry.target == t;
        RetryAt(s, us, fault, n, m, i);
        UpsertAt(s, us, i);
      } else {
        forall k | 0 <= k < |retries| ensures retries[k].entry.target != t {
          var j := RetryStems(us, Codes(s, us, fault, n), k);
        }
        WrittenElsewhere(s, us, fault, n, t);
        WrittenElsewhere(s1, retries, fault, m, t);
        UpsertElsewhere(s, us, t);
      }
    }
    SameTables(Written(s1, retries, fault, m), UpsertAll(s, us));
  }

  // ---------------------------------------------------------------------------------------
  // SetAllTableEntries
  // ---------------------------------------------------------------------------------------

  function Filter(es: seq<Entry>, keep: Entry -> bool): seq<Entry> {
    if es == [] then [] else (if keep(es[0]) then [es[0]] else []) + Filter(es[1..], keep)
  }

  method FilterTableEntries(es: seq<Entry>, keep: Entry -> bool) returns (r: seq<Entry>)
    ensures r == Filter(es, keep)
  {
    r := [];
    ghost var goal := Filter(es, keep);
    for i := 0 to |es|
      invariant goal == r + Filter(es[i..], keep)
    {
      assert es[i..][0] == es[i] && es[i..][1..] == es[i + 1..];
      if keep(es[i]) {
        r := r + [es[i]];
      }
    }
  }

  predicate IsDefault(e: Entry) { e.target.Default? }

  predicate IsKey(e: Entry) { e.target.Key? }

  /** One update of a kind for each entry. */
  function Edits(es: seq<Entry>, kind: Kind): (us: seq<Update>)
    ensures |us| == |es| && forall i :: 0 <= i < |us| ==> us[i] == Update(kind, es[i])
  {
    if es == [] then [] else [Update(kind, es[0])] + Edits(es[1..], kind)
  }

  /** The tables, and how many updates and calls the switch has seen. */
  datatype SwitchState = SwitchState(tables: Tables, updates: nat, calls: nat)

  /** What can go wrong at the switch besides what Next says: errors of updates, and lost responses of calls. */
  datatype Faults = Faults(fault: nat -> Code, lost: nat -> bool) {
    ghost predicate Absent() { forall k :: fault(k) == OK && !lost(k) }
  }

  /** One write of edits of one kind, and whether it is reported as successful. */
  ghost function Edited(f: Faults, w: SwitchState, es: seq<Entry>, kind: Kind): (SwitchState, bool) {
    var us := Edits(es, kind);
    (SwitchState(Written(w.tables, us, f.fault, w.updates), w.updates + |es|, w.calls + 1),
     !f.lost(w.calls) && AllOK(Codes(w.tables, us, f.fault, w.updates)))
  }

  ghost function EditedIfAny(f: Faults, w: SwitchState, es: seq<Entry>, kind: Kind): (SwitchState, bool) {
    if es == [] then (w, true) else Edited(f, w, es, kind)
  }

  /** `listed` is what reading the tables gave; reading can fail. */
  ghost function AllCleared(f: Faults, w: SwitchState, listed: Option<seq<Entry>>): (SwitchState, bool) {
    if listed.None? then (w, false) else Edited(f, w, Filter(listed.value, IsKey), Delete)
  }

  /** The writes of SetAllTableEntries, which stop at the first one that fails. */
  ghost function AllSet(f: Faults, w: SwitchState, listed: Option<seq<Entry>>, es: seq<Entry>): (SwitchState, bool) {
    var (w1, cleared) := AllCleared(f, w, listed);
    if !cleared || es == [] then (w1, cleared)
    else
      var (w2, modified) := EditedIfAny(f, w1, Filter(es, IsDefault), Modify);
      if !modified then (w2, false) else EditedIfAny(f, w2, Filter(es, IsKey), Insert)
  }

  method EditTableEntries(switch: P4Switch, es: seq<Entry>, kind: Kind) returns (ok: bool)
    modifies switch
    ensures (switch.State(), ok) == Edited(switch.Oracle(), old(switch.State()), es, kind)
  {
    var us := [];
    for i := 0 to |es|
      invariant |us| == i && forall j :: 0 <= j < i ==> us[j] == Update(kind, es[j])
    {
      us := us + [Update(kind, es[i])];
    }
    assert us == Edits(es, kind);
    var r := switch.Write(us);
    ok := r.Done?;
  }

  method ClearAllTableEntries(switch: P4Switch, listed: Option<seq<Entry>>) returns (ok: bool)
    modifies switch
    ensures (switch.State(), ok) == AllCleared(switch.Oracle(), old(switch.State()), listed)
  {
    if listed.None? {
      return false;
    }
    var nonDefault := FilterTableEntries(listed.value, IsKey);
    ok := EditTableEntries(switch, nonDefault, Delete);
  }

  method SetAllTableEntries(switch: P4Switch, listed: Option<seq<Entry>>, es: seq<Entry>) returns (ok: bool)
    modifies switch
    ensures (switch.State(), ok) == AllSet(switch.Oracle(), old(switch.State()), listed, es)
  {
    ok := ClearAllTableEntries(switch, listed);
    if !ok {
      return false;
    }
    if |es| == 0 {
      return true;
    }
    var defaults := FilterTableEntries(es, IsDefault);
    var keys := FilterTableEntries(es, IsKey);
    if |defaults| != 0 {
      var modified := EditTableEntries(switch, defaults, Modify);
      if !modified {
        return false;
      }
    }
    if |keys| != 0 {
      var inserted := EditTableEntries(switch, keys, Insert);
      if !inserted {
        return false;
      }
    }
    return true;
  }

  // ---------------------------------------------------------------------------------------
  // What the edits amount to
  // ---------------------------------------------------------------------------------------

  /** All edits of a kind will be carried out. */
  ghost predicate CanEdit(s: Tables, es: seq<Entry>, kind: Kind) {
    match kind
    case Unspecified => es == []
    case Modify => forall e :: e in es ==> e.target.Default? || e.target in s
    case Insert => DistinctTargets(Edits(es, kind)) && forall e :: e in es ==> e.target.Key? && e.target !in s
    case Delete => DistinctTargets(Edits(es, kind)) && forall e :: e in es ==> e.target.Key? && e.target in s
  }

  /** An entry that exists is not inserted again without an error. */
  lemma {:induction false} NoInsertTwice(s: Tables, us: seq<Update>, fault: nat -> Code, n: nat, t: Target)
    requires t in s && AllOK(Codes(s, us, fault, n)) && forall i :: 0 <= i < |us| ==> us[i].kind == Insert
    ensures !Touches(us, t)
    decreases |us|
  {
    if us != [] {
      TailCodes(s, us, fault, n);
      NoInsertTwice(Apply(s, us[0], fault(n)), us[1..], fault, n + 1, t);
      assert forall i :: 1 <= i < |us| ==> us[i] == us[1..][i - 1];
    }
  }

  lemma {:induction false} InsertsDistinct(s: Tables, us: seq<Update>, fault: nat -> Code, n: nat)
    requires AllOK(Codes(s, us, fault, n)) && forall i :: 0 <= i < |us| ==> us[i].kind == Insert
    ensures DistinctTargets(us)
    decreases |us|
  {
    if us != [] {
      var s' := Apply(s, us[0], fault(n));
      TailCodes(s, us, fault, n);
      assert us[0].entry.target in s';
      InsertsDistinct(s', us[1..], fault, n + 1);
      NoInsertTwice(s', us[1..], fault, n + 1, us[0].entry.target);
      assert forall i :: 1 <= i < |us| ==> us[i] == us[1..][i - 1];
    }
  }

  lemma {:induction false} ModifiesOK(s: Tables, us: seq<Update>, fault: nat -> Code, n: nat)
    requires forall k :: fault(k) == OK
    requires forall i :: 0 <= i < |us| ==> us[i].kind == Modify && (us[i].entry.target.Default? || us[i].entry.target in s)
    ensures AllOK(Codes(s, us, fault, n))
    decreases |us|
  {
    if us != [] { ModifiesOK(Apply(s, us[0], fault(n)), us[1..], fault, n + 1); }
  }

  lemma EditsOK(s: Tables, es: seq<Entry>, kind: Kind, fault: nat -> Code, n: nat)
    requires CanEdit(s, es, kind) && forall k :: fault(k) == OK
    ensures AllOK(Codes(s, Edits(es, kind), fault, n))
  {
    var us := Edits(es, kind);
    if kind == Modify {
      ModifiesOK(s, us, fault, n);
    } else {
      var codes := Codes(s, us, fault, n);
      forall i | 0 <= i < |us| ensures codes[i] == OK {
        assert es[i] in es;
        WrittenAt(s, us, fault, n, i);
      }
    }
  }

  lemma {:induction false} FilterMembers(es: seq<Entry>, keep: Entry -> bool)
    ensures forall e :: e in Filter(es, keep) <==> e in es && keep(e)
  {
    if es != [] { FilterMembers(es[1..], keep); }
  }

  /** The listing contains every entry of the tables. */
  ghost predicate Complete(s: Tables, listed: seq<Entry>) {
    forall t :: t in s && t.Key? ==> Entry(t, s[t]) in listed
  }

  /** What the entries say about a target; the last one counts. */
  function Given(es: seq<Entry>, t: Target): Option<Action> {
    if es == [] then None
    else
      var later := Given(es[1..], t);
      if later.Some? then later else if es[0].target == t then Some(es[0].action) else None
  }

  /** The given entries, and otherwise only the default actions there were. */
  ghost predicate IsReplaced(s: Tables, es: seq<Entry>, s': Tables) {
    forall t :: Value(s', t) == if Given(es, t).Some? then Given(es, t) else if t.Default? then Value(s, t) else None
  }

  ghost predicate IsCleared(s: Tables, s': Tables) {
    forall t :: Value(s', t) == if t.Default? then Value(s, t) else None
  }

  ghost predicate IsSet(s: Tables, es: seq<Entry>, s': Tables) {
    forall t :: Value(s', t) == if Given(es, t).Some? then Given(es, t) else Value(s, t)
  }

  lemma {:induction false} DeletesRemove(s: Tables, us: seq<Update>, t: Target)
    requires forall i :: 0 <= i < |us| ==> us[i].kind == Delete
    ensures Value(UpsertAll(s, us), t) == if Touches(us, t) then None else Value(s, t)
    decreases |us|
  {
    if us != [] {
      DeletesRemove(Upsert(s, us[0]), us[1..], t);
      assert forall i :: 1 <= i < |us| ==> us[i] == us[1..][i - 1];
      if Touches(us[1..], t) {
        var i :| 0 <= i < |us[1..]| && us[1..][i].entry.target == t;
        assert us[i + 1].entry.target == t;
      }
    }
  }

  /** Deleting what a complete listing contains leaves the default actions only. */
  lemma ClearLeavesDefaults(s: Tables, listed: seq<Entry>)
    requires Complete(s, listed)
    ensures IsCleared(s, UpsertAll(s, Edits(Filter(listed, IsKey), Delete)))
  {
    var es := Filter(listed, IsKey);
    var us := Edits(es, Delete);
    FilterMembers(listed, IsKey);
    forall t ensures Value(UpsertAll(s, us), t) == if t.Default? then Value(s, t) else None {
      DeletesRemove(s, us, t);
      if t.Key? && t in s {
        var e := Entry(t, s[t]);
        assert e in es;
        var i :| 0 <= i < |es| && es[i] == e;
        assert us[i].entry.target == t;
      } else if t.Default? && Touches(us, t) {
        var i :| 0 <= i < |us| && us[i].entry.target == t;
        assert es[i] in es;
      }
    }
  }

  /** Edits that set entries: the last one for a target counts. */
  lemma {:induction false} EditsSet(s: Tables, es: seq<Entry>, kind: Kind)
    requires kind == Modify || kind == Insert
    ensures IsSet(s, es, UpsertAll(s, Edits(es, kind)))
    decreases |es|
  {
    if es != [] {
      var u := Update(kind, es[0]);
      assert Edits(es, kind)[1..] == Edits(es[1..], kind);
      EditsSet(Upsert(s, u), es[1..], kind);
    }
  }

  lemma {:induction false} GivenFiltered(es: seq<Entry>, t: Target)
    ensures Given(Filter(es, IsDefault), t) == if t.Default? then Given(es, t) else None
    ensures Given(Filter(es, IsKey), t) == if t.Key? then Given(es, t) else None
  {
    if es != [] {
      GivenFiltered(es[1..], t);
      var d, k := Filter(es, IsDefault), Filter(es, IsKey);
      if IsDefault(es[0]) {
        assert d[1..] == Filter(es[1..], IsDefault) && k == Filter(es[1..], IsKey);
      } else {
        assert d == Filter(es[1..], IsDefault) && k[1..] == Filter(es[1..], IsKey);
      }
    }
  }

  lemma NoKeysYet(s: Tables, s1: Tables, es: seq<Entry>, s2: Tables)
    requires IsCleared(s, s1) && IsSet(s1, Filter(es, IsDefault), s2)
    ensures forall t: Target :: t.Key? ==> t !in s2
  {
    forall t: Target | t.Key? ensures t !in s2 {
      GivenFiltered(es, t);
      assert Value(s1, t) == None && Value(s2, t) == None;
    }
  }

  lemma Assembled(s: Tables, s1: Tables, s2: Tables, s3: Tables, es: seq<Entry>)
    requires IsCleared(s, s1) && IsSet(s1, Filter(es, IsDefault), s2) && IsSet(s2, Filter(es, IsKey), s3)
    ensures IsReplaced(s, es, s3)
  {
    forall t ensures Value(s3, t) == if Given(es, t).Some? then Given(es, t) else if t.Default? then Value(s, t) else None {
      GivenFiltered(es, t);
      assert Value(s1, t) == if t.Default? then Value(s, t) else None;
      assert Value(s2, t) == if Given(Filter(es, IsDefault), t).Some? then Given(Filter(es, IsDefault), t) else Value(s1, t);
    }
  }

  /** Edits reported as successful took effect, all of them; insertions then had distinct targets. */
  lemma EditedMeans(f: Faults, w: SwitchState, es: seq<Entry>, kind: Kind)
    requires Edited(f, w, es, kind).1
    ensures Edited(f, w, es, kind).0.tables == UpsertAll(w.tables, Edits(es, kind))
    ensures kind == Insert ==> DistinctTargets(Edits(es, kind))
  {
    WriteIsUpsert(w.tables, Edits(es, kind), f.fault, w.updates);
    if kind == Insert { InsertsDistinct(w.tables, Edits(es, kind), f.fault, w.updates); }
  }

  /** Setting entries, if there are any. */
  lemma SetMeans(f: Faults, w: SwitchState, es: seq<Entry>, kind: Kind)
    requires kind == Modify || kind == Insert
    ensures EditedIfAny(f, w, es, kind).1 ==>
              IsSet(w.tables, es, EditedIfAny(f, w, es, kind).0.tables) && (kind == Insert ==> DistinctTargets(Edits(es, kind)))
    ensures f.Absent() && CanEdit(w.tables, es, kind) ==> EditedIfAny(f, w, es, kind).1
  {
    EditsSet(w.tables, es, kind);
    if es != [] {
      if Edited(f, w, es, kind).1 { EditedMeans(f, w, es, kind); }
      if f.Absent() && CanEdit(w.tables, es, kind) { EditsOK(w.tables, es, kind, f.fault, w.updates); }
    }
  }

  /** A successful clear with a complete listing leaves the default actions only. */
  lemma ClearMeans(f: Faults, w: SwitchState, listed: Option<seq<Entry>>)
    requires listed.Some? ==> Complete(w.tables, listed.value)
    ensures AllCleared(f, w, listed).1 ==> listed.Some? && IsCleared(w.tables, AllCleared(f, w, listed).0.tables)
    ensures f.Absent() && listed.Some? && CanEdit(w.tables, Filter(listed.value, IsKey), Delete) ==> AllCleared(f, w, listed).1
  {
    if listed.Some? {
      var es := Filter(listed.value, IsKey);
      if Edited(f, w, es, Delete).1 {
        EditedMeans(f, w, es, Delete);
        ClearLeavesDefaults(w.tables, listed.value);
      }
      if f.Absent() && CanEdit(w.tables, es, Delete) { EditsOK(w.tables, es, Delete, f.fault, w.updates); }
    }
  }

  /**
   With a complete listing, success means that the tables hold exactly the given entries, each
   target once, and that of the default actions only the given ones have changed.
   */
  lemma AllSetIsExact(f: Faults, w: SwitchState, listed: Option<seq<Entry>>, es: seq<Entry>)
    requires listed.Some? ==> Complete(w.tables, listed.value)
    requires AllSet(f, w, listed, es).1
    ensures IsReplaced(w.tables, es, AllSet(f, w, listed, es).0.tables)
    ensures DistinctTargets(Edits(Filter(es, IsKey), Insert))
  {
    var w1 := AllCleared(f, w, listed).0;
    ClearMeans(f, w, listed);
    if es != [] {
      var w2 := EditedIfAny(f, w1, Filter(es, IsDefault), Modify).0;
      SetMeans(f, w1, Filter(es, IsDefault), Modify);
      SetMeans(f, w2, Filter(es, IsKey), Insert);
      Assembled(w.tables, w1.tables, w2.tables, AllSet(f, w, listed, es).0.tables, es);
    }
  }

  /** If nothing else goes wrong, an exact listing and distinct targets of the given entries suffice for success. */
  lemma AllSetSucceeds(f: Faults, w: SwitchState, listed: seq<Entry>, es: seq<Entry>)
    requires f.Absent() && Complete(w.tables, listed) && CanEdit(w.tables, Filter(listed, IsKey), Delete)
    requires DistinctTargets(Edits(Filter(es, IsKey), Insert))
    ensures AllSet(f, w, Some(listed), es).1
  {
    var w1 := AllCleared(f, w, Some(listed)).0;
    ClearMeans(f, w, Some(listed));
    if es != [] {
      var w2 := EditedIfAny(f, w1, Filter(es, IsDefault), Modify).0;
      FilterMembers(es, IsDefault);
      FilterMembers(es, IsKey);
      SetMeans(f, w1, Filter(es, IsDefault), Modify);
      NoKeysYet(w.tables, w1.tables, es, w2.tables);
      SetMeans(f, w2, Filter(es, IsKey), Insert);
    }
  }

  /** The value of a target after a write, faults or not: as before, or as one of the updates of it leaves it. */
  lemma {:induction false} WrittenFrom(s: Tables, us: seq<Update>, fault: nat -> Code, n: nat, t: Target)
    ensures var v := Value(Written(s, us, fault, n), t);
            || v == Value(s, t)
            || exists i :: 0 <= i < |us| && us[i].entry.target == t && v == if us[i].kind == Delete then None else Some(us[i].entry.action)
    decreases |us|
  {
    if us != [] {
      var s', v := Apply(s, us[0], fault(n)), Value(Written(s, us, fault, n), t);
      WrittenFrom(s', us[1..], fault, n + 1, t);
      if v != Value(s', t) {
        var i :| 0 <= i < |us[1..]| && us[1..][i].entry.target == t && v == if us[1..][i].kind == Delete then None else Some(us[1..][i].entry.action);
        assert us[i + 1] == us[1..][i];
      } else if v != Value(s, t) {
        assert us[0].entry.target == t;
      }
    }
  }

  /** The same for one write of edits. */
  lemma EditedFrom(f: Faults, w: SwitchState, es: seq<Entry>, kind: Kind, t: Target)
    ensures var v := Value(Edited(f, w, es, kind).0.tables, t);
            || v == Value(w.tables, t)
            || (kind == Delete && v == None)
            || (kind != Delete && v.Some? && Entry(t, v.value) in es)
  {
    var us, v := Edits(es, kind), Value(Edited(f, w, es, kind).0.tables, t);
    WrittenFrom(w.tables, us, f.fault, w.updates, t);
    if v != Value(w.tables, t) {
      var i :| 0 <= i < |us| && us[i].entry.target == t && v == if us[i].kind == Delete then None else Some(us[i].entry.action);
      assert es[i] in es;
      assert kind != Delete ==> es[i] == Entry(t, v.value);
    }
  }

  /**
   The tables after a failure, target by target. If clearing fails, default actions are untouched
   and an entry is as it was or gone. If changing default actions fails, no entry is there at all,
   and a default action is as it was or a given one. If inserting fails, the default actions are
   the given ones, and every entry that is there is a given one.
   */
  lemma AllSetFailure(f: Faults, w: SwitchState, listed: Option<seq<Entry>>, es: seq<Entry>, t: Target)
    requires listed.Some? ==> Complete(w.tables, listed.value)
    requires !AllSet(f, w, listed, es).1
    ensures var v, was := Value(AllSet(f, w, listed, es).0.tables, t), Value(w.tables, t);
            if !AllCleared(f, w, listed).1 then v == was || (t.Key? && v == None)
            else if !EditedIfAny(f, AllCleared(f, w, listed).0, Filter(es, IsDefault), Modify).1 then
              if t.Key? then v == None else v == was || (v.Some? && Entry(t, v.value) in es)
            else if t.Default? then v == (if Given(es, t).Some? then Given(es, t) else was)
            else v == None || Entry(t, v.value) in es
  {
    var w1 := AllCleared(f, w, listed).0;
    ClearMeans(f, w, listed);
    if !AllCleared(f, w, listed).1 {
      ClearFailure(f, w, listed, t);
    } else if !EditedIfAny(f, w1, Filter(es, IsDefault), Modify).1 {
      DefaultsFailure(f, w1, es, t);
      assert Value(w1.tables, t) == if t.Default? then Value(w.tables, t) else None;
    } else {
      var w2 := EditedIfAny(f, w1, Filter(es, IsDefault), Modify).0;
      SetMeans(f, w1, Filter(es, IsDefault), Modify);
      KeysFailure(f, w2, es, t);
      GivenFiltered(es, t);
      assert Value(w1.tables, t) == if t.Default? then Value(w.tables, t) else None;
    }
  }

  lemma ClearFailure(f: Faults, w: SwitchState, listed: Option<seq<Entry>>, t: Target)
    ensures var v := Value(AllCleared(f, w, listed).0.tables, t); v == Value(w.tables, t) || (t.Key? && v == None)
  {
    if listed.Some? {
      var es := Filter(listed.value, IsKey);
      EditedFrom(f, w, es, Delete, t);
      FilterMembers(listed.value, IsKey);
      if t.Default? { EditedElsewhere(f, w, es, Delete, t); }
    }
  }

  lemma DefaultsFailure(f: Faults, w: SwitchState, es: seq<Entry>, t: Target)
    ensures var v := Value(EditedIfAny(f, w, Filter(es, IsDefault), Modify).0.tables, t);
            v == Value(w.tables, t) || (t.Default? && v.Some? && Entry(t, v.value) in es)
  {
    EditedFrom(f, w, Filter(es, IsDefault), Modify, t);
    FilterMembers(es, IsDefault);
    if t.Key? { EditedElsewhere(f, w, Filter(es, IsDefault), Modify, t); }
  }

  lemma KeysFailure(f: Faults, w: SwitchState, es: seq<Entry>, t: Target)
    ensures var v := Value(EditedIfAny(f, w, Filter(es, IsKey), Insert).0.tables, t);
            v == Value(w.tables, t) || (t.Key? && v.Some? && Entry(t, v.value) in es)
  {
    EditedFrom(f, w, Filter(es, IsKey), Insert, t);
    FilterMembers(es, IsKey);
    if t.Default? { EditedElsewhere(f, w, Filter(es, IsKey), Insert, t); }
  }

  /** Also when it fails: a target that is not given, and is a default action or not listed, keeps its value. */
  lemma AllSetKeepsOthers(f: Faults, w: SwitchState, listed: Option<seq<Entry>>, es: seq<Entry>, t: Target)
    requires forall e :: e in es ==> e.target != t
    requires t.Default? || (listed.Some? ==> forall e :: e in listed.value ==> e.target != t)
    ensures Value(AllSet(f, w, listed, es).0.tables, t) == Value(w.tables, t)
  {
    var w1 := AllCleared(f, w, listed).0;
    if listed.Some? {
      FilterMembers(listed.value, IsKey);
      EditedElsewhere(f, w, Filter(listed.value, IsKey), Delete, t);
    }
    FilterMembers(es, IsDefault);
    FilterMembers(es, IsKey);
    EditedElsewhere(f, w1, Filter(es, IsDefault), Modify, t);
    EditedElsewhere(f, EditedIfAny(f, w1, Filter(es, IsDefault), Modify).0, Filter(es, IsKey), Insert, t);
  }

  lemma EditedElsewhere(f: Faults, w: SwitchState, es: seq<Entry>, kind: Kind, t: Target)
    requires forall e :: e in es ==> e.target != t
    ensures Value(Edited(f, w, es, kind).0.tables, t) == Value(w.tables, t)
  {
    var us := Edits(es, kind);
    forall i | 0 <= i < |us| ensures us[i].entry.target != t { assert es[i] in es; }
    WrittenElsewhere(w.tables, us, f.fault, w.updates, t);
  }

  lemma {:induction false} GivenDistinct(es: seq<Entry>, t: Target, a: Action)
    requires DistinctTargets(Edits(es, Insert))
    ensures Given(es, t) == Some(a) <==> Entry(t, a) in es
  {
    if es != [] {
      var us := Edits(es, Insert);
      forall i, j | 0 <= i < j < |es[1..]| ensures es[1..][i].target != es[1..][j].target {
        assert us[i + 1].entry.target != us[j + 1].entry.target;
      }
      GivenDistinct(es[1..], t, a);
      if es[0].target == t {
        forall i | 0 <= i < |es[1..]| ensures es[1..][i].target != t {
          assert us[0].entry.target != us[i + 1].entry.target;
        }
        NotGiven(es[1..], t);
      }
    }
  }

  lemma {:induction false} NotGiven(es: seq<Entry>, t: Target)
    requires forall i :: 0 <= i < |es| ==> es[i].target != t
    ensures Given(es, t) == None
  {
    if es != [] { NotGiven(es[1..], t); }
  }

  /** After a successful SetAllTableEntries an entry that is no default action is there exactly if it was given. */
  lemma ReplacedExactly(s: Tables, es: seq<Entry>, s': Tables, t: Target, a: Action)
    requires IsReplaced(s, es, s') && DistinctTargets(Edits(Filter(es, IsKey), Insert)) && t.Key?
    ensures Value(s', t) == Some(a) <==> Entry(t, a) in es
  {
    GivenFiltered(es, t);
    FilterMembers(es, IsKey);
    GivenDistinct(Filter(es, IsKey), t, a);
  }
}

/**
 The walk that finds everything wired to a VRF, in the order in which it can be torn down.

 Links are walked breadth first from the VRF along master links, and the order is then
 reversed, so that every interface comes before its master.
 */
module VrfWalk {

  datatype Link = Link(index: int, master: int)  // master 0: not enslaved

  /** `i` is the index of a slave of `m` in the listing. */
  ghost predicate Edge(links: seq<Link>, m: int, i: int) {
    m != 0 && Link(i, m) in links
  }

  /** A chain of exactly `n` masters leads from index `i` to the root. */
  ghost predicate Chain(links: seq<Link>, root: int, n: nat, i: int)
    decreases n
  {
    if n == 0 then i == root
    else exists m :: Edge(links, m, i) && Chain(links, root, n - 1, m)
  }

  ghost predicate Reachable(links: seq<Link>, root: int, i: int) {
    exists n: nat :: Chain(links, root, n, i)
  }

  /** The length of the shortest chain. */
  ghost predicate Depth(links: seq<Link>, root: int, n: nat, i: int) {
    Chain(links, root, n, i) && forall k: nat :: k < n ==> !Chain(links, root, k, i)
  }

  method Reversed<T>(s: seq<T>) returns (r: seq<T>)
    ensures |r| == |s| && forall i :: 0 <= i < |s| ==> r[i] == s[|s| - 1 - i]
  {
    r := [];
    for i := 0 to |s|
      invariant |r| == i && forall j :: 0 <= j < i ==> r[j] == s[i - 1 - j]
    {
      r := [s[i]] + r;
    }
  }

  // ---------------------------------------------------------------------------------------
  // The children lists
  // ---------------------------------------------------------------------------------------

  ghost predicate ChildrenOf(children: map<int, seq<Link>>, links: seq<Link>) {
    && (forall m :: m in children ==> m != 0)
    && (forall l :: l in links && l.master != 0 ==> l.master in children && l in children[l.master])
    && (forall m, l :: m in children && l in children[m] ==> l in links && l.master == m)
  }

  method GroupByMaster(links: seq<Link>) returns (children: map<int, seq<Link>>)
    ensures ChildrenOf(children, links)
  {
    children := map[];
    for i := 0 to |links|
      invariant ChildrenOf(children, links[..i])
    {
      assert links[..i + 1] == links[..i] + [links[i]];
      var master := links[i].master;
      if master != 0 {
        children := children[master := (if master in children then children[master] else []) + [links[i]]];
      }
    }
    assert links[..|links|] == links;
  }

  // ---------------------------------------------------------------------------------------
  // The walk
  // ---------------------------------------------------------------------------------------

  ghost predicate Distinct(s: seq<int>) {
    forall i, j :: 0 <= i < j < |s| ==> s[i] != s[j]
  }

  /** `found`: the root, then the links found so far, each hanging off an index found before it. */
  ghost predicate FoundInOrder(links: seq<Link>, ordered: seq<Link>, found: seq<int>) {
    && |found| == |ordered| + 1
    && Distinct(found)
    && (forall j :: 0 <= j < |ordered| ==> ordered[j].index == found[j + 1])
    && (forall j :: 0 <= j < |ordered| ==> ordered[j] in links && ordered[j].master != 0 && ordered[j].master in found[..j + 1])
  }

  ghost predicate DepthsRight(links: seq<Link>, root: int, found: seq<int>, depth: seq<nat>) {
    |depth| == |found| && forall j :: 0 <= j < |found| ==> Depth(links, root, depth[j], found[j])
  }

  /** Depths never decrease, and go at most one level below that of `cur`, the index being processed. */
  ghost predicate Layered(depth: seq<nat>, cur: nat) {
    && cur < |depth|
    && (forall i, j :: 0 <= i < j < |depth| ==> depth[i] <= depth[j])
    && (forall j :: 0 <= j < |depth| ==> depth[j] <= depth[cur] + 1)
  }

  /** Every index at most `n` levels deep has been found. */
  ghost predicate Complete(links: seq<Link>, root: int, found: seq<int>, n: nat) {
    forall k: nat, i :: k <= n && Chain(links, root, k, i) ==> i in found
  }

  /** All slaves of the first `n` found indices have been found. */
  ghost predicate Expanded(links: seq<Link>, found: seq<int>, n: nat)
    requires n <= |found|
  {
    forall j, i :: 0 <= j < n && Edge(links, found[j], i) ==> i in found
  }

  lemma AppendFound(links: seq<Link>, ordered: seq<Link>, found: seq<int>, l: Link)
    requires FoundInOrder(links, ordered, found) && l in links && l.master != 0 && l.master in found && l.index !in found
    ensures FoundInOrder(links, ordered + [l], found + [l.index])
  {
    var ordered', found' := ordered + [l], found + [l.index];
    forall j | 0 <= j < |ordered'| ensures ordered'[j] in links && ordered'[j].master != 0 && ordered'[j].master in found'[..j + 1] {
      assert found'[..j + 1] == found[..j + 1];
      assert found[..|found|] == found;
    }
  }

  /** A newly found slave of an index of depth `n` has depth `n + 1`. */
  lemma SlaveDepth(links: seq<Link>, root: int, found: seq<int>, n: nat, l: Link)
    requires Complete(links, root, found, n) && Chain(links, root, n, l.master)
    requires l in links && l.master != 0 && l.index !in found
    ensures Depth(links, root, n + 1, l.index)
  {
    assert Edge(links, l.master, l.index);
    assert Chain(links, root, n + 1, l.index);
  }

  /** Moving on to the next index: all levels up to its depth have been found. */
  lemma NextLevel(links: seq<Link>, root: int, found: seq<int>, depth: seq<nat>, cur: nat)
    requires DepthsRight(links, root, found, depth) && Layered(depth, cur) && cur + 1 < |found|
    requires Complete(links, root, found, depth[cur]) && Expanded(links, found, cur + 1)
    ensures Complete(links, root, found, depth[cur + 1])
  {
    forall k: nat, i | k <= depth[cur + 1] && Chain(links, root, k, i) ensures i in found {
      if k > depth[cur] {
        var m :| Edge(links, m, i) && Chain(links, root, k - 1, m);
        var j :| 0 <= j < |found| && found[j] == m;
        assert Depth(links, root, depth[j], m);
        assert j < cur + 1;
      }
    }
  }

  lemma {:induction false} DistinctSize(s: seq<int>, all: set<int>)
    requires Distinct(s) && forall i :: i in s ==> i in all
    ensures |s| <= |all|
  {
    if s != [] {
      var last := s[|s| - 1];
      DistinctSize(s[..|s| - 1], all - {last});
    }
  }

  /** The walk's variables: `taken` found indices have left the queue, `cur` is being processed. */
  ghost predicate Walking(links: seq<Link>, root: int, ordered: seq<Link>, visited: set<int>, queue: seq<int>,
                          found: seq<int>, depth: seq<nat>, taken: nat, cur: nat)
  {
    && taken <= |found| && queue == found[taken..]
    && visited == (set i | i in found)
    && FoundInOrder(links, ordered, found) && found[0] == root
    && DepthsRight(links, root, found, depth) && Layered(depth, cur)
    && Complete(links, root, found, depth[cur])
    && (forall i :: i in found ==> i in All(links, root))
  }

  ghost function All(links: seq<Link>, root: int): set<int> {
    {root} + set l | l in links :: l.index
  }

  lemma StartWalking(links: seq<Link>, root: int)
    ensures Walking(links, root, [], {root}, [root], [root], [0], 0, 0)
    ensures Expanded(links, [root], 0)
  {
  }

  lemma FindSlave(links: seq<Link>, root: int, ordered: seq<Link>, visited: set<int>, queue: seq<int>,
                  found: seq<int>, depth: seq<nat>, taken: nat, cur: nat, l: Link)
    requires Walking(links, root, ordered, visited, queue, found, depth, taken, cur)
    requires l in links && l.master != 0 && cur < |found| && l.master == found[cur] && l.index !in visited
    ensures Walking(links, root, ordered + [l], visited + {l.index}, queue + [l.index],
                    found + [l.index], depth + [depth[cur] + 1], taken, cur)
  {
    assert Depth(links, root, depth[cur], found[cur]);
    SlaveDepth(links, root, found, depth[cur], l);
    AppendFound(links, ordered, found, l);
  }

  /** A set of indices that holds the root and is closed under slaves holds everything reachable. */
  lemma {:induction false} ClosedHoldsAll(links: seq<Link>, found: seq<int>, root: int, n: nat, i: int)
    requires root in found && Expanded(links, found, |found|) && Chain(links, root, n, i)
    ensures i in found
    decreases n
  {
    if n > 0 {
      var m :| Edge(links, m, i) && Chain(links, root, n - 1, m);
      ClosedHoldsAll(links, found, root, n - 1, m);
      var j :| 0 <= j < |found| && found[j] == m;
    }
  }

  /** Exactly the reachable indices other than the root, each once. */
  ghost predicate ListsDescendants(links: seq<Link>, root: int, r: seq<Link>) {
    && (forall l :: l in r ==> l in links && l.master != 0)
    && (forall i, j :: 0 <= i < j < |r| ==> r[i].index != r[j].index)
    && (forall l :: l in r ==> l.index != root && Reachable(links, root, l.index))
    && (forall i :: i != root && Reachable(links, root, i) ==> exists l :: l in r && l.index == i)
  }

  /** Every link comes before its master, which is the root or listed too. */
  ghost predicate MastersLast(root: int, r: seq<Link>) {
    && (forall i, j :: 0 <= i < |r| && 0 <= j < |r| && r[i].master == r[j].index ==> i < j)
    && (forall l :: l in r && l.master != root ==> exists l' :: l' in r && l'.index == l.master)
  }

  ghost predicate DeepestFirst(links: seq<Link>, root: int, r: seq<Link>) {
    forall i, j, n: nat, m: nat ::
      0 <= i < j < |r| && Depth(links, root, n, r[i].index) && Depth(links, root, m, r[j].index) ==> m <= n
  }

  /** What the teardown relies on. */
  ghost predicate TeardownOrder(links: seq<Link>, root: int, r: seq<Link>) {
    ListsDescendants(links, root, r) && MastersLast(root, r) && DeepestFirst(links, root, r)
  }

  lemma DepthUnique(links: seq<Link>, root: int, n: nat, m: nat, i: int)
    requires Depth(links, root, n, i) && Depth(links, root, m, i)
    ensures n == m
  {
  }

  /** `r` is the walk read backwards. */
  ghost predicate Backwards(r: seq<Link>, ordered: seq<Link>) {
    |r| == |ordered| && forall i :: 0 <= i < |r| ==> r[i] == ordered[|r| - 1 - i]
  }

  lemma WalkListsDescendants(links: seq<Link>, root: int, ordered: seq<Link>, found: seq<int>, depth: seq<nat>, r: seq<Link>)
    requires FoundInOrder(links, ordered, found) && found[0] == root && DepthsRight(links, root, found, depth)
    requires Expanded(links, found, |found|) && Backwards(r, ordered)
    ensures ListsDescendants(links, root, r)
  {
    assert forall i :: 0 <= i < |r| ==> r[i].index == found[|r| - i];
    forall i | i != root && Reachable(links, root, i) ensures exists l :: l in r && l.index == i {
      var n: nat :| Chain(links, root, n, i);
      ClosedHoldsAll(links, found, root, n, i);
      var j :| 0 <= j < |found| && found[j] == i;
      assert r[|r| - j] in r;
    }
    forall l | l in r ensures l in links && l.master != 0 && l.index != root && Reachable(links, root, l.index) {
      var i :| 0 <= i < |r| && r[i] == l;
      assert Depth(links, root, depth[|r| - i], found[|r| - i]);
    }
  }

  lemma WalkMastersLast(links: seq<Link>, ordered: seq<Link>, found: seq<int>, r: seq<Link>)
    requires FoundInOrder(links, ordered, found) && Backwards(r, ordered)
    ensures MastersLast(found[0], r)
  {
    var last := |r| - 1;
    assert forall i :: 0 <= i < |r| ==> r[i].index == found[|r| - i];
    forall i, j | 0 <= i < |r| && 0 <= j < |r| && r[i].master == r[j].index ensures i < j {
      assert ordered[last - i].master in found[..last - i + 1];
    }
    forall l | l in r && l.master != found[0] ensures exists l' :: l' in r && l'.index == l.master {
      var i :| 0 <= i < |r| && r[i] == l;
      assert ordered[last - i].master in found[..last - i + 1];
      var j :| 0 <= j < last - i + 1 && found[j] == l.master;
      assert r[|r| - j] in r;
    }
  }

  lemma WalkDeepestFirst(links: seq<Link>, root: int, ordered: seq<Link>, found: seq<int>, depth: seq<nat>, r: seq<Link>)
    requires FoundInOrder(links, ordered, found) && DepthsRight(links, root, found, depth) && Backwards(r, ordered)
    requires forall i, j :: 0 <= i < j < |depth| ==> depth[i] <= depth[j]
    ensures DeepestFirst(links, root, r)
  {
    assert forall i :: 0 <= i < |r| ==> r[i].index == found[|r| - i];
    forall i, j, n: nat, m: nat | 0 <= i < j < |r| && Depth(links, root, n, r[i].index) && Depth(links, root, m, r[j].index)
      ensures m <= n
    {
      DepthUnique(links, root, n, depth[|r| - i], r[i].index);
      DepthUnique(links, root, m, depth[|r| - j], r[j].index);
    }
  }

  /** The finished walk, read backwards. */
  lemma WalkIsTeardownOrder(links: seq<Link>, root: int, ordered: seq<Link>, found: seq<int>, depth: seq<nat>, r: seq<Link>)
    requires FoundInOrder(links, ordered, found) && found[0] == root && DepthsRight(links, root, found, depth)
    requires forall i, j :: 0 <= i < j < |depth| ==> depth[i] <= depth[j]
    requires Expanded(links, found, |found|) && Backwards(r, ordered)
    ensures TeardownOrder(links, root, r)
  {
    WalkListsDescendants(links, root, ordered, found, depth, r);
    WalkMastersLast(links, ordered, found, r);
    WalkDeepestFirst(links, root, ordered, found, depth, r);
  }

  lemma TakeNext(links: seq<Link>, root: int, ordered: seq<Link>, visited: set<int>, queue: seq<int>,
                 found: seq<int>, depth: seq<nat>, taken: nat, cur: nat)
    requires Walking(links, root, ordered, visited, queue, found, depth, taken, cur)
    requires queue != [] && cur == (if taken == 0 then 0 else taken - 1) && Expanded(links, found, taken)
    ensures Walking(links, root, ordered, visited, queue[1..], found, depth, taken + 1, taken)
    ensures queue[0] == found[taken] && |found| <= |All(links, root)|
  {
    DistinctSize(found, All(links, root));
    if taken > 0 { NextLevel(links, root, found, depth, cur); }
  }

  lemma ExpandedOne(links: seq<Link>, found: seq<int>, found': seq<int>, cur: nat, slaves: seq<Link>)
    requires found <= found' && cur < |found| && Expanded(links, found, cur)
    requires forall l :: l in links && l.master != 0 && l.master == found[cur] ==> l in slaves
    requires forall k :: 0 <= k < |slaves| ==> slaves[k].index in found'
    ensures Expanded(links, found', cur + 1)
  {
    forall j, i | 0 <= j < cur + 1 && Edge(links, found'[j], i) ensures i in found' {
      assert found'[j] == found[j];
      if j < cur {
        assert i in found;
        var k :| 0 <= k < |found| && found[k] == i;
        assert found'[k] == i;
      } else {
        assert Link(i, found[cur]) in slaves;
      }
    }
  }

  /** The inner loop: queue the slaves of index `cur` that are new. */
  method VisitSlaves(ghost links: seq<Link>, ghost root: int, slaves: seq<Link>, ordered: seq<Link>, visited: set<int>,
                     queue: seq<int>, ghost found: seq<int>, ghost depth: seq<nat>, ghost cur: nat)
    returns (ordered': seq<Link>, visited': set<int>, queue': seq<int>, ghost found': seq<int>, ghost depth': seq<nat>)
    requires Walking(links, root, ordered, visited, queue, found, depth, cur + 1, cur) && Expanded(links, found, cur)
    requires forall l :: l in slaves ==> l in links && l.master != 0 && l.master == found[cur]
    requires forall l :: l in links && l.master != 0 && l.master == found[cur] ==> l in slaves
    ensures Walking(links, root, ordered', visited', queue', found', depth', cur + 1, cur)
    ensures Expanded(links, found', cur + 1)
  {
    ordered', visited', queue', found', depth' := ordered, visited, queue, found, depth;
    for i := 0 to |slaves|
      invariant found <= found'
      invariant Walking(links, root, ordered', visited', queue', found', depth', cur + 1, cur)
      invariant forall k :: 0 <= k < i ==> slaves[k].index in found'
    {
      var child := slaves[i];
      assert found'[cur] == found[cur];
      if child.index in visited' { continue; }
      FindSlave(links, root, ordered', visited', queue', found', depth', cur + 1, cur, child);
      visited' := visited' + {child.index};
      ordered' := ordered' + [child];
      queue' := queue' + [child.index];
      found', depth' := found' + [child.index], depth' + [depth'[cur] + 1];
    }
    ExpandedOne(links, found, found', cur, slaves);
  }

  /** Terminates for every listing, master loops included, and returns the links to tear down. */
  method VrfDescendants(vrfIndex: int, links: seq<Link>) returns (r: seq<Link>)
    ensures TeardownOrder(links, vrfIndex, r)
  {
    var children := GroupByMaster(links);
    var ordered: seq<Link> := [];
    var visited := {vrfIndex};
    var queue := [vrfIndex];
    ghost var found, depth: seq<nat>, done, cur := [vrfIndex], [0], 0, 0;
    StartWalking(links, vrfIndex);
    while queue != []
      invariant cur == if done == 0 then 0 else done - 1
      invariant Walking(links, vrfIndex, ordered, visited, queue, found, depth, done, cur)
      invariant Expanded(links, found, done)
      decreases |All(links, vrfIndex)| - done
    {
      TakeNext(links, vrfIndex, ordered, visited, queue, found, depth, done, cur);
      var master := queue[0];
      queue := queue[1..];
      cur := done;
      var slaves := if master in children then children[master] else [];
      ordered, visited, queue, found, depth :=
        VisitSlaves(links, vrfIndex, slaves, ordered, visited, queue, found, depth, cur);
      done := done + 1;
    }
    r := Reversed(ordered);
    WalkIsTeardownOrder(links, vrfIndex, ordered, found, depth, r);
  }

  /** With distinct indices (as the kernel guarantees), the result is exactly the reachable links. */
  lemma TeardownIsExact(links: seq<Link>, root: int, r: seq<Link>, l: Link)
    requires TeardownOrder(links, root, r)
    requires forall i, j :: 0 <= i < j < |links| ==> links[i].index != links[j].index
    ensures l in r <==> l in links && l.index != root && Reachable(links, root, l.index)
    ensures l in r ==> l.master != 0
  {
    if l in links && l.index != root && Reachable(links, root, l.index) {
      var l' :| l' in r && l'.index == l.index;
      assert l' == l;
    }
  }
}

// getDescendants of the D3 family-tree component: the nodes carrying the
// given id, followed by a pre-order walk over `parentId` links in which the
// children of a node are visited in list order.
//
// The source returns the node objects themselves; the chart handler then
// writes flags onto those objects. Here the walk returns their positions in
// the node list, which play the part of the object references.

module Descendants {
  import opened FamilyNodes

  /** Acyclicity of the parent links, witnessed by a rank keyed by id: every
      node that names a parent has a rank, so does the parent it names, and
      the parent's rank is strictly greater. */
  ghost predicate Ranked(nodes: seq<FamilyNode>, rank: map<int, nat>) {
    forall i :: 0 <= i < |nodes| && nodes[i].parentId.Some? ==>
      nodes[i].id in rank && nodes[i].parentId.value in rank &&
      rank[nodes[i].id] < rank[nodes[i].parentId.value]
  }

  ghost function RankOf(rank: map<int, nat>, id: int): nat {
    if id in rank then rank[id] else 0
  }

  ghost predicate UniqueIds(nodes: seq<FamilyNode>) {
    forall i, j :: 0 <= i < j < |nodes| ==> nodes[i].id != nodes[j].id
  }

  ghost predicate InRange(s: seq<nat>, n: nat) {
    forall j :: 0 <= j < |s| ==> s[j] < n
  }

  /** `nodes.filter((node) => node.id === id)`, as positions, from position
      `k` on: exactly the positions holding the id, in increasing order. */
  function Matching(nodes: seq<FamilyNode>, id: int, k: nat): (r: seq<nat>)
    requires k <= |nodes|
    ensures forall j :: 0 <= j < |r| ==> k <= r[j] < |nodes| && nodes[r[j]].id == id
    ensures forall i :: k <= i < |nodes| && nodes[i].id == id ==> i in r
    ensures forall a, b :: 0 <= a < b < |r| ==> r[a] < r[b]
    decreases |nodes| - k
  {
    if k == |nodes| then []
    else if nodes[k].id == id then [k] + Matching(nodes, id, k + 1)
    else Matching(nodes, id, k + 1)
  }

  /** The recursive `findChildren(parentId)`, continued from position `k` of
      the `forEach`: every node from `k` on whose parent is `parentId` is
      pushed and immediately followed by its own children. */
  function FindChildren(nodes: seq<FamilyNode>, ghost rank: map<int, nat>, parentId: int, k: nat): (r: seq<nat>)
    requires Ranked(nodes, rank) && k <= |nodes|
    ensures InRange(r, |nodes|)
    decreases RankOf(rank, parentId), |nodes| - k
  {
    if k == |nodes| then []
    else
      var here := if nodes[k].parentId == Some(parentId)
                  then [k] + FindChildren(nodes, rank, nodes[k].id, 0)
                  else [];
      here + FindChildren(nodes, rank, parentId, k + 1)
  }

  /** getDescendants(nodes, id), as positions in `nodes`. */
  function DescendantIndices(nodes: seq<FamilyNode>, ghost rank: map<int, nat>, id: int): (r: seq<nat>)
    requires Ranked(nodes, rank)
    ensures InRange(r, |nodes|)
  {
    Matching(nodes, id, 0) + FindChildren(nodes, rank, id, 0)
  }

  /** getDescendants(nodes, id): the nodes at those positions. */
  function GetDescendants(nodes: seq<FamilyNode>, ghost rank: map<int, nat>, id: int): (r: seq<FamilyNode>)
    requires Ranked(nodes, rank)
    ensures |r| == |DescendantIndices(nodes, rank, id)|
    ensures forall j :: 0 <= j < |r| ==> r[j] == nodes[DescendantIndices(nodes, rank, id)[j]]
  {
    var idx := DescendantIndices(nodes, rank, id);
    seq(|idx|, j requires 0 <= j < |idx| => nodes[idx[j]])
  }

  /** Position `x` lies strictly below the id `p`: some node whose parent is
      `p` is `x` or has `x` below it. */
  ghost predicate Below(nodes: seq<FamilyNode>, rank: map<int, nat>, p: int, x: nat)
    requires Ranked(nodes, rank)
    decreases RankOf(rank, p)
  {
    exists k :: 0 <= k < |nodes| && nodes[k].parentId == Some(p) &&
      (x == k || Below(nodes, rank, nodes[k].id, x))
  }

  // ---------------------------------------------------------------------
  // Facts about Below

  /** What lies below `p` is a node with a smaller rank than `p`. */
  lemma {:induction false} BelowRank(nodes: seq<FamilyNode>, rank: map<int, nat>, p: int, x: nat)
    requires Ranked(nodes, rank) && Below(nodes, rank, p, x)
    ensures x < |nodes| && nodes[x].id in rank && p in rank && rank[nodes[x].id] < rank[p]
    decreases RankOf(rank, p)
  {
    var k :| 0 <= k < |nodes| && nodes[k].parentId == Some(p) &&
      (x == k || Below(nodes, rank, nodes[k].id, x));
    if x != k {
      BelowRank(nodes, rank, nodes[k].id, x);
    }
  }

  /** Seen from below: `x` is below `p` when its parent is `p`, or when its
      parent is the id of some node below `p`. */
  lemma {:induction false} BelowUp(nodes: seq<FamilyNode>, rank: map<int, nat>, p: int, x: nat)
    requires Ranked(nodes, rank) && Below(nodes, rank, p, x)
    ensures x < |nodes|
    ensures nodes[x].parentId == Some(p) ||
      exists j :: 0 <= j < |nodes| && nodes[x].parentId == Some(nodes[j].id) && Below(nodes, rank, p, j)
    decreases RankOf(rank, p)
  {
    var k :| 0 <= k < |nodes| && nodes[k].parentId == Some(p) &&
      (x == k || Below(nodes, rank, nodes[k].id, x));
    if x != k {
      BelowUp(nodes, rank, nodes[k].id, x);
      if nodes[x].parentId == Some(nodes[k].id) {
        assert Below(nodes, rank, p, k);
      } else {
        var j :| 0 <= j < |nodes| && nodes[x].parentId == Some(nodes[j].id) && Below(nodes, rank, nodes[k].id, j);
        assert Below(nodes, rank, p, j);
      }
    }
  }

  /** With unique ids the ancestors of a node form a single chain: of two
      distinct ids above `x`, one lies above the node carrying the other. */
  lemma {:induction false} BelowChain(nodes: seq<FamilyNode>, rank: map<int, nat>, a: int, b: int, x: nat)
    requires Ranked(nodes, rank) && UniqueIds(nodes)
    requires x < |nodes| && Below(nodes, rank, a, x) && Below(nodes, rank, b, x) && a != b
    ensures (exists j :: 0 <= j < |nodes| && nodes[j].id == b && Below(nodes, rank, a, j)) ||
            (exists j :: 0 <= j < |nodes| && nodes[j].id == a && Below(nodes, rank, b, j))
    decreases RankOf(rank, a) - RankOf(rank, nodes[x].id)
  {
    BelowRank(nodes, rank, a, x);
    BelowUp(nodes, rank, a, x);
    BelowUp(nodes, rank, b, x);
    if nodes[x].parentId == Some(a) {
      if nodes[x].parentId != Some(b) {
        var j :| 0 <= j < |nodes| && nodes[x].parentId == Some(nodes[j].id) && Below(nodes, rank, b, j);
        assert nodes[j].id == a;
      }
    } else if nodes[x].parentId == Some(b) {
      var j :| 0 <= j < |nodes| && nodes[x].parentId == Some(nodes[j].id) && Below(nodes, rank, a, j);
      assert nodes[j].id == b;
    } else {
      var j1 :| 0 <= j1 < |nodes| && nodes[x].parentId == Some(nodes[j1].id) && Below(nodes, rank, a, j1);
      var j2 :| 0 <= j2 < |nodes| && nodes[x].parentId == Some(nodes[j2].id) && Below(nodes, rank, b, j2);
      assert j1 == j2;
      BelowRank(nodes, rank, a, j1);
      BelowChain(nodes, rank, a, b, j1);
    }
  }

  /** Two different children of the same parent have nothing below them in
      common (with unique ids), and neither lies below the other. */
  lemma SiblingNotBelow(nodes: seq<FamilyNode>, rank: map<int, nat>, p: int, k: nat, k': nat)
    requires Ranked(nodes, rank)
    requires k < |nodes| && k' < |nodes|
    requires nodes[k].parentId == Some(p) && nodes[k'].parentId == Some(p)
    ensures !Below(nodes, rank, nodes[k].id, k')
  {
    if Below(nodes, rank, nodes[k].id, k') {
      BelowUp(nodes, rank, nodes[k].id, k');
      if nodes[k'].parentId != Some(nodes[k].id) {
        var j :| 0 <= j < |nodes| && nodes[k'].parentId == Some(nodes[j].id) && Below(nodes, rank, nodes[k].id, j);
        BelowRank(nodes, rank, nodes[k].id, j);
      }
    }
  }

  // ---------------------------------------------------------------------
  // What the walk visits

  /** The walk from position `k` visits exactly the children of `p` at
      positions `k` and later, and everything below them. */
  lemma {:induction false} FindChildrenMembers(nodes: seq<FamilyNode>, rank: map<int, nat>, p: int, k: nat, x: nat)
    requires Ranked(nodes, rank) && k <= |nodes|
    ensures x in FindChildren(nodes, rank, p, k) <==>
      exists c :: k <= c < |nodes| && nodes[c].parentId == Some(p) && (x == c || Below(nodes, rank, nodes[c].id, x))
    decreases RankOf(rank, p), |nodes| - k
  {
    if k < |nodes| {
      FindChildrenMembers(nodes, rank, p, k + 1, x);
      if nodes[k].parentId == Some(p) {
        FindChildrenMembers(nodes, rank, nodes[k].id, 0, x);
      }
    }
  }

  /** A node is never below itself. */
  lemma NotBelowSelf(nodes: seq<FamilyNode>, rank: map<int, nat>, k: nat)
    requires Ranked(nodes, rank) && k < |nodes|
    ensures !Below(nodes, rank, nodes[k].id, k)
  {
    if Below(nodes, rank, nodes[k].id, k) {
      BelowRank(nodes, rank, nodes[k].id, k);
    }
  }

  /** With unique ids, what lies below one child of `p` is neither a later
      sibling nor below one. */
  lemma SiblingsApart(nodes: seq<FamilyNode>, rank: map<int, nat>, p: int, k: nat, c: nat, x: nat)
    requires Ranked(nodes, rank) && UniqueIds(nodes)
    requires k < c < |nodes| && nodes[k].parentId == Some(p) && nodes[c].parentId == Some(p)
    requires x == k || Below(nodes, rank, nodes[k].id, x)
    ensures x != c && !Below(nodes, rank, nodes[c].id, x)
  {
    SiblingNotBelow(nodes, rank, p, c, k);
    SiblingNotBelow(nodes, rank, p, k, c);
    if x != k && Below(nodes, rank, nodes[c].id, x) {
      BelowRank(nodes, rank, nodes[k].id, x);
      BelowChainAt(nodes, rank, k, c, x);
    }
  }

  /** BelowChain for two nodes of the list. */
  lemma BelowChainAt(nodes: seq<FamilyNode>, rank: map<int, nat>, ka: nat, kb: nat, x: nat)
    requires Ranked(nodes, rank) && UniqueIds(nodes)
    requires ka < |nodes| && kb < |nodes| && x < |nodes| && ka != kb
    requires Below(nodes, rank, nodes[ka].id, x) && Below(nodes, rank, nodes[kb].id, x)
    ensures Below(nodes, rank, nodes[ka].id, kb) || Below(nodes, rank, nodes[kb].id, ka)
  {
    BelowChain(nodes, rank, nodes[ka].id, nodes[kb].id, x);
    if j :| 0 <= j < |nodes| && nodes[j].id == nodes[kb].id && Below(nodes, rank, nodes[ka].id, j) {
      assert j == kb;
    } else {
      var j :| 0 <= j < |nodes| && nodes[j].id == nodes[ka].id && Below(nodes, rank, nodes[kb].id, j);
      assert j == ka;
    }
  }

  lemma DistinctConcat(a: seq<nat>, b: seq<nat>)
    requires Distinct(a) && Distinct(b)
    requires forall x :: x in a ==> x !in b
    ensures Distinct(a + b)
  {
    forall i, j | 0 <= i < j < |a + b|
      ensures (a + b)[i] != (a + b)[j]
    {
      if j < |a| {
      } else if i >= |a| {
        assert (a + b)[i] == b[i - |a|];
        assert (a + b)[j] == b[j - |a|];
      } else {
        assert (a + b)[i] in a;
        assert (a + b)[j] in b;
      }
    }
  }

  /** With unique ids the walk visits no position twice. */
  lemma {:induction false} FindChildrenDistinct(nodes: seq<FamilyNode>, rank: map<int, nat>, p: int, k: nat)
    requires Ranked(nodes, rank) && UniqueIds(nodes) && k <= |nodes|
    ensures Distinct(FindChildren(nodes, rank, p, k))
    decreases RankOf(rank, p), |nodes| - k
  {
    if k < |nodes| {
      var rest := FindChildren(nodes, rank, p, k + 1);
      FindChildrenDistinct(nodes, rank, p, k + 1);
      if nodes[k].parentId == Some(p) {
        var sub := FindChildren(nodes, rank, nodes[k].id, 0);
        FindChildrenDistinct(nodes, rank, nodes[k].id, 0);
        assert k !in sub by {
          FindChildrenMembers(nodes, rank, nodes[k].id, 0, k);
          NotBelowSelf(nodes, rank, k);
        }
        DistinctConcat([k], sub);
        forall x | x in [k] + sub
          ensures x !in rest
        {
          FindChildrenMembers(nodes, rank, p, k + 1, x);
          if x != k {
            FindChildrenMembers(nodes, rank, nodes[k].id, 0, x);
          }
          forall c | k + 1 <= c < |nodes| && nodes[c].parentId == Some(p)
            ensures x != c && !Below(nodes, rank, nodes[c].id, x)
          {
            SiblingsApart(nodes, rank, p, k, c, x);
          }
        }
        DistinctConcat([k] + sub, rest);
      }
    }
  }

  // ---------------------------------------------------------------------
  // getDescendants

  /** getDescendants visits exactly the nodes carrying `id` and the nodes
      below `id`. */
  lemma DescendantsMembers(nodes: seq<FamilyNode>, rank: map<int, nat>, id: int, x: nat)
    requires Ranked(nodes, rank)
    ensures x in DescendantIndices(nodes, rank, id) <==>
      x < |nodes| && (nodes[x].id == id || Below(nodes, rank, id, x))
  {
    FindChildrenMembers(nodes, rank, id, 0, x);
  }

  /** Nothing the walk below `id` visits carries `id` itself. */
  lemma WalkAvoidsStart(nodes: seq<FamilyNode>, rank: map<int, nat>, id: int, x: nat)
    requires Ranked(nodes, rank) && x in FindChildren(nodes, rank, id, 0)
    ensures nodes[x].id != id
  {
    FindChildrenMembers(nodes, rank, id, 0, x);
    var k :| 0 <= k < |nodes| && nodes[k].parentId == Some(id) && (x == k || Below(nodes, rank, nodes[k].id, x));
    if x != k {
      BelowRank(nodes, rank, nodes[k].id, x);
    }
  }

  /** With unique ids every node at or below `id` is visited exactly once. */
  lemma DescendantsOnce(nodes: seq<FamilyNode>, rank: map<int, nat>, id: int)
    requires Ranked(nodes, rank) && UniqueIds(nodes)
    ensures Distinct(DescendantIndices(nodes, rank, id))
  {
    var m := Matching(nodes, id, 0);
    var c := FindChildren(nodes, rank, id, 0);
    FindChildrenDistinct(nodes, rank, id, 0);
    forall x | x in m
      ensures x !in c
    {
      if x in c {
        WalkAvoidsStart(nodes, rank, id, x);
      }
    }
    DistinctConcat(m, c);
  }

  /** The walk starts with all the nodes carrying `id`, in list order, and
      no later node carries `id`. */
  lemma DescendantsLead(nodes: seq<FamilyNode>, rank: map<int, nat>, id: int)
    requires Ranked(nodes, rank)
    ensures var r := DescendantIndices(nodes, rank, id);
      var m := |Matching(nodes, id, 0)|;
      m <= |r| &&
      (forall i :: 0 <= i < |nodes| && nodes[i].id == id ==> i in r[..m]) &&
      (forall j :: 0 <= j < m ==> nodes[r[j]].id == id) &&
      (forall a, b :: 0 <= a < b < m ==> r[a] < r[b]) &&
      (forall j :: m <= j < |r| ==> nodes[r[j]].id != id)
  {
    var r := DescendantIndices(nodes, rank, id);
    var ms := Matching(nodes, id, 0);
    var c := FindChildren(nodes, rank, id, 0);
    assert r[..|ms|] == ms;
    forall j | |ms| <= j < |r|
      ensures nodes[r[j]].id != id
    {
      assert r[j] == c[j - |ms|];
      WalkAvoidsStart(nodes, rank, id, r[j]);
    }
  }

  /** After the nodes carrying `id`, every node's parent is `id` or the id
      of a node visited before it. */
  lemma DescendantsParentsEarlier(nodes: seq<FamilyNode>, rank: map<int, nat>, id: int)
    requires Ranked(nodes, rank)
    ensures var r := DescendantIndices(nodes, rank, id);
      forall j :: |Matching(nodes, id, 0)| <= j < |r| ==>
        nodes[r[j]].parentId == Some(id) ||
        exists e :: 0 <= e < j && nodes[r[j]].parentId == Some(nodes[r[e]].id)
  {
    var r := DescendantIndices(nodes, rank, id);
    var ms := Matching(nodes, id, 0);
    var c := FindChildren(nodes, rank, id, 0);
    ParentsEarlierWalk(nodes, rank, id, 0);
    forall j | |ms| <= j < |r|
      ensures nodes[r[j]].parentId == Some(id) ||
        exists e :: 0 <= e < j && nodes[r[j]].parentId == Some(nodes[r[e]].id)
    {
      var jc := j - |ms|;
      assert r[j] == c[jc];
      if nodes[c[jc]].parentId != Some(id) {
        var e :| 0 <= e < jc && nodes[c[jc]].parentId == Some(nodes[c[e]].id);
        assert r[e + |ms|] == c[e];
      }
    }
  }

  /** In a walk below `p`, each node's parent is `p` or the id of a node
      that came earlier in the walk. */
  ghost predicate ParentsEarlier(nodes: seq<FamilyNode>, s: seq<nat>, p: int)
    requires InRange(s, |nodes|)
  {
    forall j :: 0 <= j < |s| ==>
      nodes[s[j]].parentId == Some(p) ||
      exists e :: 0 <= e < j && nodes[s[j]].parentId == Some(nodes[s[e]].id)
  }

  lemma ParentsEarlierConcat(nodes: seq<FamilyNode>, p: int, k: nat, sub: seq<nat>, rest: seq<nat>)
    requires k < |nodes| && nodes[k].parentId == Some(p)
    requires InRange(sub, |nodes|) && InRange(rest, |nodes|)
    requires ParentsEarlier(nodes, sub, nodes[k].id) && ParentsEarlier(nodes, rest, p)
    ensures InRange([k] + sub + rest, |nodes|)
    ensures ParentsEarlier(nodes, [k] + sub + rest, p)
  {
    var s := [k] + sub + rest;
    forall j | 0 <= j < |s|
      ensures nodes[s[j]].parentId == Some(p) ||
        exists e :: 0 <= e < j && nodes[s[j]].parentId == Some(nodes[s[e]].id)
    {
      if j == 0 {
      } else if j <= |sub| {
        assert s[j] == sub[j - 1];
        if nodes[sub[j - 1]].parentId == Some(nodes[k].id) {
          assert s[0] == k;
        } else {
          var e :| 0 <= e < j - 1 && nodes[sub[j - 1]].parentId == Some(nodes[sub[e]].id);
          assert s[e + 1] == sub[e];
        }
      } else {
        var jr := j - 1 - |sub|;
        assert s[j] == rest[jr];
        if nodes[rest[jr]].parentId != Some(p) {
          var e :| 0 <= e < jr && nodes[rest[jr]].parentId == Some(nodes[rest[e]].id);
          assert s[e + 1 + |sub|] == rest[e];
        }
      }
    }
  }

  lemma {:induction false} ParentsEarlierWalk(nodes: seq<FamilyNode>, rank: map<int, nat>, p: int, k: nat)
    requires Ranked(nodes, rank) && k <= |nodes|
    ensures ParentsEarlier(nodes, FindChildren(nodes, rank, p, k), p)
    decreases RankOf(rank, p), |nodes| - k
  {
    if k < |nodes| {
      var rest := FindChildren(nodes, rank, p, k + 1);
      ParentsEarlierWalk(nodes, rank, p, k + 1);
      if nodes[k].parentId == Some(p) {
        var sub := FindChildren(nodes, rank, nodes[k].id, 0);
        ParentsEarlierWalk(nodes, rank, nodes[k].id, 0);
        ParentsEarlierConcat(nodes, p, k, sub, rest);
        assert FindChildren(nodes, rank, p, k) == [k] + sub + rest;
      } else {
        assert FindChildren(nodes, rank, p, k) == rest;
      }
    }
  }

  // ---------------------------------------------------------------------
  // The walk is a pre-order

  /** One step of the `forEach` in FindChildren: the node at `k` either
      starts a subtree of `p` or is passed over. */
  lemma FindChildrenStep(nodes: seq<FamilyNode>, rank: map<int, nat>, p: int, k: nat)
    requires Ranked(nodes, rank) && k < |nodes|
    ensures nodes[k].parentId == Some(p) ==>
      FindChildren(nodes, rank, p, k) ==
        [k] + FindChildren(nodes, rank, nodes[k].id, 0) + FindChildren(nodes, rank, p, k + 1)
    ensures nodes[k].parentId != Some(p) ==>
      FindChildren(nodes, rank, p, k) == FindChildren(nodes, rank, p, k + 1)
  {
  }

  /** Every node of `w` names a parent, ranked at most `bound`. */
  ghost predicate ParentsRankedAtMost(nodes: seq<FamilyNode>, rank: map<int, nat>, w: seq<nat>, bound: nat)
    requires InRange(w, |nodes|)
  {
    forall e :: 0 <= e < |w| ==>
      nodes[w[e]].parentId.Some? && RankOf(rank, nodes[w[e]].parentId.value) <= bound
  }

  lemma ParentsRankedCons(nodes: seq<FamilyNode>, rank: map<int, nat>, k: nat, sub: seq<nat>, rest: seq<nat>,
                          subBound: nat, bound: nat)
    requires k < |nodes| && InRange(sub, |nodes|) && InRange(rest, |nodes|)
    requires nodes[k].parentId.Some? && RankOf(rank, nodes[k].parentId.value) <= bound
    requires ParentsRankedAtMost(nodes, rank, sub, subBound) && subBound <= bound
    requires ParentsRankedAtMost(nodes, rank, rest, bound)
    ensures InRange([k] + sub + rest, |nodes|)
    ensures ParentsRankedAtMost(nodes, rank, [k] + sub + rest, bound)
  {
    var w := [k] + sub + rest;
    forall e | 0 <= e < |w|
      ensures nodes[w[e]].parentId.Some? && RankOf(rank, nodes[w[e]].parentId.value) <= bound
    {
      if 1 <= e <= |sub| {
        assert w[e] == sub[e - 1];
      } else if e > |sub| {
        assert w[e] == rest[e - 1 - |sub|];
      }
    }
  }

  /** One step of WalkParentRank: from the walks after `k` and below the
      node at `k` to the walk from `k`. */
  lemma WalkParentRankStep(nodes: seq<FamilyNode>, rank: map<int, nat>, q: int, k: nat)
    requires Ranked(nodes, rank) && k < |nodes|
    requires ParentsRankedAtMost(nodes, rank, FindChildren(nodes, rank, q, k + 1), RankOf(rank, q))
    requires nodes[k].parentId == Some(q) ==>
      ParentsRankedAtMost(nodes, rank, FindChildren(nodes, rank, nodes[k].id, 0), RankOf(rank, nodes[k].id))
    ensures ParentsRankedAtMost(nodes, rank, FindChildren(nodes, rank, q, k), RankOf(rank, q))
  {
    FindChildrenStep(nodes, rank, q, k);
    if nodes[k].parentId == Some(q) {
      ParentsRankedCons(nodes, rank, k, FindChildren(nodes, rank, nodes[k].id, 0),
                        FindChildren(nodes, rank, q, k + 1), RankOf(rank, nodes[k].id), RankOf(rank, q));
    }
  }

  /** Every node of the walk below `q` names a parent ranked no higher than
      `q`, so nothing inside the subtree of a child of `p` is itself a child
      of `p`. */
  lemma {:induction false} WalkParentRank(nodes: seq<FamilyNode>, rank: map<int, nat>, q: int, k: nat)
    requires Ranked(nodes, rank) && k <= |nodes|
    ensures ParentsRankedAtMost(nodes, rank, FindChildren(nodes, rank, q, k), RankOf(rank, q))
    decreases RankOf(rank, q), |nodes| - k
  {
    if k < |nodes| {
      WalkParentRank(nodes, rank, q, k + 1);
      if nodes[k].parentId == Some(q) {
        WalkParentRank(nodes, rank, nodes[k].id, 0);
      }
      WalkParentRankStep(nodes, rank, q, k);
    }
  }

  /** The children of `p` in `w` are taken from position `k` on and appear
      in list order. */
  ghost predicate ChildrenInOrder(nodes: seq<FamilyNode>, w: seq<nat>, p: int, k: nat)
    requires InRange(w, |nodes|)
  {
    (forall i :: 0 <= i < |w| && nodes[w[i]].parentId == Some(p) ==> k <= w[i]) &&
    (forall i, j :: 0 <= i < j < |w| && nodes[w[i]].parentId == Some(p) && nodes[w[j]].parentId == Some(p) ==>
       w[i] < w[j])
  }

  lemma ChildrenInOrderCons(nodes: seq<FamilyNode>, rank: map<int, nat>, p: int, k: nat, sub: seq<nat>,
                            rest: seq<nat>, subBound: nat)
    requires k < |nodes| && nodes[k].parentId == Some(p) && InRange(sub, |nodes|) && InRange(rest, |nodes|)
    requires ParentsRankedAtMost(nodes, rank, sub, subBound) && subBound < RankOf(rank, p)
    requires ChildrenInOrder(nodes, rest, p, k + 1)
    ensures InRange([k] + sub + rest, |nodes|)
    ensures ChildrenInOrder(nodes, [k] + sub + rest, p, k)
  {
    var w := [k] + sub + rest;
    assert forall e :: 1 <= e <= |sub| ==> w[e] == sub[e - 1];
    assert forall e :: |sub| < e < |w| ==> w[e] == rest[e - 1 - |sub|];
  }

  /** One step of SiblingsInListOrder. */
  lemma SiblingsStep(nodes: seq<FamilyNode>, rank: map<int, nat>, p: int, k: nat)
    requires Ranked(nodes, rank) && k < |nodes|
    requires ChildrenInOrder(nodes, FindChildren(nodes, rank, p, k + 1), p, k + 1)
    ensures ChildrenInOrder(nodes, FindChildren(nodes, rank, p, k), p, k)
  {
    FindChildrenStep(nodes, rank, p, k);
    if nodes[k].parentId == Some(p) {
      WalkParentRank(nodes, rank, nodes[k].id, 0);
      ChildrenInOrderCons(nodes, rank, p, k, FindChildren(nodes, rank, nodes[k].id, 0),
                          FindChildren(nodes, rank, p, k + 1), RankOf(rank, nodes[k].id));
    }
  }

  /** In the walk below `p` from position `k`, the children of `p` are
      taken from position `k` on and appear in list order. */
  lemma {:induction false} SiblingsInListOrder(nodes: seq<FamilyNode>, rank: map<int, nat>, p: int, k: nat)
    requires Ranked(nodes, rank) && k <= |nodes|
    ensures ChildrenInOrder(nodes, FindChildren(nodes, rank, p, k), p, k)
    decreases |nodes| - k
  {
    if k < |nodes| {
      SiblingsInListOrder(nodes, rank, p, k + 1);
      SiblingsStep(nodes, rank, p, k);
    }
  }

  /** Between entries `lo` and `hi` of `w`, every entry `x` is followed at
      once by `t[x]`. */
  ghost predicate FollowedBy(w: seq<nat>, t: map<nat, seq<nat>>, lo: nat, hi: nat)
    requires hi <= |w|
  {
    forall j :: lo <= j < hi ==>
      w[j] in t && j + 1 + |t[w[j]]| <= |w| && w[j + 1 .. j + 1 + |t[w[j]]|] == t[w[j]]
  }

  /** The walk below each node, keyed by the node's position. */
  ghost function Subtrees(nodes: seq<FamilyNode>, rank: map<int, nat>): (t: map<nat, seq<nat>>)
    requires Ranked(nodes, rank)
    ensures forall x: nat :: x < |nodes| <==> x in t
  {
    map x: nat | x < |nodes| :: FindChildren(nodes, rank, nodes[x].id, 0)
  }

  /** A segment of `b` is the same segment of `a + b`, shifted by `|a|`. */
  lemma SegmentShift(a: seq<nat>, b: seq<nat>, i: nat, c: seq<nat>)
    requires i + |c| <= |b| && b[i .. i + |c|] == c
    ensures (a + b)[|a| + i .. |a| + i + |c|] == c
  {
    assert (a + b)[|a| ..] == b;
  }

  /** A segment of `a` is the same segment of `a + b`. */
  lemma SegmentPrefix(a: seq<nat>, b: seq<nat>, i: nat, c: seq<nat>)
    requires i + |c| <= |a| && a[i .. i + |c|] == c
    ensures (a + b)[i .. i + |c|] == c
  {
    assert (a + b)[.. |a|] == a;
  }

  lemma FollowedByShift(a: seq<nat>, b: seq<nat>, t: map<nat, seq<nat>>, m: nat)
    requires m <= |b| && FollowedBy(b, t, m, |b|)
    ensures FollowedBy(a + b, t, |a| + m, |a + b|)
  {
    var r := a + b;
    forall j | |a| + m <= j < |r|
      ensures r[j] in t && j + 1 + |t[r[j]]| <= |r| && r[j + 1 .. j + 1 + |t[r[j]]|] == t[r[j]]
    {
      var jb := j - |a|;
      assert r[j] == b[jb];
      SegmentShift(a, b, jb + 1, t[b[jb]]);
    }
  }

  lemma FollowedByExtend(a: seq<nat>, b: seq<nat>, t: map<nat, seq<nat>>)
    requires FollowedBy(a, t, 0, |a|)
    ensures FollowedBy(a + b, t, 0, |a|)
  {
    var r := a + b;
    forall j | 0 <= j < |a|
      ensures r[j] in t && j + 1 + |t[r[j]]| <= |r| && r[j + 1 .. j + 1 + |t[r[j]]|] == t[r[j]]
    {
      assert r[j] == a[j];
      SegmentPrefix(a, b, j + 1, t[a[j]]);
    }
  }

  /** An entry followed by its own `t`-segment, then a sequence in which
      every entry is followed by its `t`-segment: again every entry is. */
  lemma FollowedByCons(k: nat, sub: seq<nat>, rest: seq<nat>, t: map<nat, seq<nat>>)
    requires k in t && t[k] == sub
    requires FollowedBy(sub, t, 0, |sub|) && FollowedBy(rest, t, 0, |rest|)
    ensures FollowedBy([k] + sub + rest, t, 0, |[k] + sub + rest|)
  {
    var head := [k] + sub;
    assert head[0] == k && head[1 .. 1 + |sub|] == sub;
    FollowedByShift([k], sub, t, 0);
    assert FollowedBy(head, t, 0, |head|);
    FollowedByExtend(head, rest, t);
    FollowedByShift(head, rest, t, 0);
  }

  /** One step of SubtreeFollows. */
  lemma SubtreeFollowsStep(nodes: seq<FamilyNode>, rank: map<int, nat>, p: int, k: nat)
    requires Ranked(nodes, rank) && k < |nodes|
    requires var w := FindChildren(nodes, rank, p, k + 1); FollowedBy(w, Subtrees(nodes, rank), 0, |w|)
    requires nodes[k].parentId == Some(p) ==>
      var w := FindChildren(nodes, rank, nodes[k].id, 0); FollowedBy(w, Subtrees(nodes, rank), 0, |w|)
    ensures var w := FindChildren(nodes, rank, p, k); FollowedBy(w, Subtrees(nodes, rank), 0, |w|)
  {
    FindChildrenStep(nodes, rank, p, k);
    if nodes[k].parentId == Some(p) {
      FollowedByCons(k, FindChildren(nodes, rank, nodes[k].id, 0), FindChildren(nodes, rank, p, k + 1),
                     Subtrees(nodes, rank));
    }
  }

  /** In the walk below `p`, every node is followed at once by the walk of
      its own subtree. */
  lemma {:induction false} SubtreeFollows(nodes: seq<FamilyNode>, rank: map<int, nat>, p: int, k: nat)
    requires Ranked(nodes, rank) && k <= |nodes|
    ensures var w := FindChildren(nodes, rank, p, k); FollowedBy(w, Subtrees(nodes, rank), 0, |w|)
    decreases RankOf(rank, p), |nodes| - k
  {
    if k < |nodes| {
      SubtreeFollows(nodes, rank, p, k + 1);
      if nodes[k].parentId == Some(p) {
        SubtreeFollows(nodes, rank, nodes[k].id, 0);
      }
      SubtreeFollowsStep(nodes, rank, p, k);
    }
  }

  /** getDescendants is a pre-order walk: after the nodes carrying `id`,
      the children of `id` come in list order, and every node is followed at
      once by the walk of its own subtree. */
  lemma DescendantsPreOrder(nodes: seq<FamilyNode>, rank: map<int, nat>, id: int)
    requires Ranked(nodes, rank)
    ensures var r := DescendantIndices(nodes, rank, id);
      ChildrenInOrder(nodes, r[|Matching(nodes, id, 0)|..], id, 0)
    ensures var r := DescendantIndices(nodes, rank, id);
      FollowedBy(r, Subtrees(nodes, rank), |Matching(nodes, id, 0)|, |r|)
  {
    var ms := Matching(nodes, id, 0);
    var w := FindChildren(nodes, rank, id, 0);
    assert DescendantIndices(nodes, rank, id) == ms + w;
    assert (ms + w)[|ms|..] == w;
    SiblingsInListOrder(nodes, rank, id, 0);
    SubtreeFollows(nodes, rank, id, 0);
    FollowedByShift(ms, w, Subtrees(nodes, rank), 0);
  }
}

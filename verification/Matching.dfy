/**
 * Maximum bipartite matching by depth-first augmentation, as gmock's
 * `MaxBipartiteMatchState` does it over two mutually referent vectors.
 */
module Matching {
  import opened Sets

  const SIZE_LIMIT: nat := 0x1_0000_0000_0000_0000
  /** `static_cast<size_t>(-1)`: never the index of a node. */
  const UNUSED: nat := SIZE_LIMIT - 1

  type Edge = (nat, nat)

  /** One row per left node (element), one column per right node (matcher). */
  datatype MatchMatrix = MatchMatrix(rows: seq<seq<bool>>, rhsSize: nat) {
    predicate Valid() {
      && |rows| < SIZE_LIMIT
      && rhsSize < SIZE_LIMIT
      && forall l :: 0 <= l < |rows| ==> |rows[l]| == rhsSize
    }

    function LhsSize(): nat {
      |rows|
    }

    predicate HasEdge(l: nat, r: nat)
      requires Valid() && l < LhsSize() && r < rhsSize
    {
      rows[l][r]
    }

    predicate Joins(l: nat, r: nat)
      requires Valid()
    {
      l < LhsSize() && r < rhsSize && HasEdge(l, r)
    }
  }

  // ---------- What a matching is ----------

  ghost predicate IsMatching(g: MatchMatrix, m: set<Edge>)
    requires g.Valid()
  {
    && (forall e :: e in m ==> g.Joins(e.0, e.1))
    && (forall e, f :: e in m && f in m && (e.0 == f.0 || e.1 == f.1) ==> e == f)
  }

  /** The pairs form a matching, listed by increasing left node, and no matching has more edges. */
  ghost predicate IsMaximum(g: MatchMatrix, pairs: seq<Edge>)
    requires g.Valid()
  {
    && (forall i, j :: 0 <= i < j < |pairs| ==> pairs[i].0 < pairs[j].0)
    && IsMatching(g, set e | e in pairs)
    && (forall m :: IsMatching(g, m) ==> |m| <= |pairs|)
  }

  /** Every right node gets a left node of its own. */
  ghost predicate IsFullAssignment(g: MatchMatrix, lhsOf: seq<nat>)
    requires g.Valid()
  {
    && |lhsOf| == g.rhsSize
    && (forall r :: 0 <= r < |lhsOf| ==> g.Joins(lhsOf[r], r))
    && (forall r, q :: 0 <= r < q < |lhsOf| ==> lhsOf[r] != lhsOf[q])
  }

  // ---------- The two vectors ----------

  /** Each used left entry names an edge whose right end points back. */
  ghost predicate LeftReferent(g: MatchMatrix, left: seq<nat>, right: seq<nat>)
    requires g.Valid()
  {
    && |left| == g.LhsSize() && |right| == g.rhsSize
    && forall l :: 0 <= l < |left| && left[l] != UNUSED ==> g.Joins(l, left[l]) && right[left[l]] == l
  }

  /** Each used right entry except `stale` names a left node that points back. */
  ghost predicate RightReferent(left: seq<nat>, right: seq<nat>, stale: nat) {
    forall r :: 0 <= r < |right| && r != stale && right[r] != UNUSED ==> right[r] < |left| && left[right[r]] == r
  }

  ghost predicate MutuallyReferent(g: MatchMatrix, left: seq<nat>, right: seq<nat>)
    requires g.Valid()
  {
    LeftReferent(g, left, right) && RightReferent(left, right, UNUSED)
  }

  /** `l` reaches nothing outside `closed` in one step. */
  ghost predicate StaysIn(g: MatchMatrix, l: nat, closed: set<nat>)
    requires g.Valid()
  {
    forall r :: g.Joins(l, r) ==> r in closed
  }

  /** Every node of `closed` is matched, to a left node that cannot leave `closed`. */
  ghost predicate IsClosed(g: MatchMatrix, right: seq<nat>, closed: set<nat>)
    requires g.Valid()
  {
    forall r :: r in closed ==> r < |right| && right[r] != UNUSED && StaysIn(g, right[r], closed)
  }

  /**
   * What a successful search from `ilhs` leaves: `ilhs` moved to another right
   * node, one free right node became used, and only `ilhs`'s former right node
   * may still hold a reference that is not returned.
   */
  ghost predicate Augmented(g: MatchMatrix, left0: seq<nat>, right0: seq<nat>,
                            left1: seq<nat>, right1: seq<nat>, ilhs: nat)
    requires g.Valid() && ilhs < |left0| == |left1|
  {
    && LeftReferent(g, left1, right1)
    && RightReferent(left1, right1, left0[ilhs])
    && left1[ilhs] != UNUSED && left1[ilhs] != left0[ilhs]
    && (forall l :: 0 <= l < |left1| && l != ilhs ==> (left1[l] == UNUSED <==> left0[l] == UNUSED))
    && (exists r :: OneMoreUsed(right0, right1, r))
  }

  ghost predicate OneMoreUsed(right0: seq<nat>, right1: seq<nat>, r: nat) {
    && |right0| == |right1| && r < |right0|
    && right0[r] == UNUSED && right1[r] != UNUSED
    && forall q :: 0 <= q < |right0| && q != r ==> (right1[q] == UNUSED <==> right0[q] == UNUSED)
  }

  /** What a failed search shows: nothing unseen is reachable from `ilhs` or from what it newly saw. */
  ghost predicate DeadEnd(g: MatchMatrix, right: seq<nat>, seen0: seq<bool>, seen1: seq<bool>, ilhs: nat)
    requires g.Valid() && |seen0| == |seen1|
  {
    && StaysIn(g, ilhs, Marked(seen1))
    && forall r :: 0 <= r < |seen1| && seen1[r] && !seen0[r] ==>
         r < |right| && right[r] != UNUSED && StaysIn(g, right[r], Marked(seen1))
  }

  ghost function Marked(seen: seq<bool>): set<nat> {
    set r: nat | r < |seen| && seen[r]
  }

  ghost function Unmarked(seen: seq<bool>): set<nat> {
    set r: nat | r < |seen| && !seen[r]
  }

  ghost function UsedRights(right: seq<nat>): set<nat> {
    set r: nat | r < |right| && right[r] != UNUSED
  }

  /**
   * The whole effect of a successful search that had seen `seen0` before it
   * started: it changes neither a node already seen nor a closed one.
   */
  ghost predicate Found(g: MatchMatrix, left0: seq<nat>, right0: seq<nat>, seen0: seq<bool>,
                        left1: seq<nat>, right1: seq<nat>, ilhs: nat, closed: set<nat>)
    requires g.Valid() && ilhs < |left0| && |seen0| == |right0|
  {
    && |left1| == |left0| && |right1| == |right0|
    && Augmented(g, left0, right0, left1, right1, ilhs)
    && left1[ilhs] !in closed
    && (forall r :: 0 <= r < |right0| && (r in closed || seen0[r]) ==> right1[r] == right0[r])
    && (forall l :: 0 <= l < |left0| && l != ilhs && IsSettled(left0, seen0, l) ==> left1[l] == left0[l])
  }

  /** `l` is unmatched, or matched to a node the search has already seen. */
  ghost predicate IsSettled(left: seq<nat>, seen: seq<bool>, l: nat)
    requires l < |left|
  {
    left[l] == UNUSED || (left[l] < |seen| && seen[left[l]])
  }

  // ---------- One augmentation ----------

  /** The search ends at a free right node. */
  lemma AugmentAtFreeNode(g: MatchMatrix, left: seq<nat>, right: seq<nat>, seen: seq<bool>,
                          ilhs: nat, irhs: nat, closed: set<nat>)
    requires g.Valid() && MutuallyReferent(g, left, right) && |seen| == |right|
    requires IsClosed(g, right, closed)
    requires g.Joins(ilhs, irhs) && right[irhs] == UNUSED && !seen[irhs]
    ensures Found(g, left, right, seen, left[ilhs := irhs], right[irhs := ilhs], ilhs, closed)
  {
    assert OneMoreUsed(right, right[irhs := ilhs], irhs);
  }

  lemma AugmentedThroughUsedNode(g: MatchMatrix, left0: seq<nat>, right0: seq<nat>,
                                 left1: seq<nat>, right1: seq<nat>, ilhs: nat, irhs: nat)
    requires g.Valid() && MutuallyReferent(g, left0, right0)
    requires g.Joins(ilhs, irhs) && right0[irhs] != UNUSED && left0[ilhs] != irhs
    requires |left1| == |left0| && |right1| == |right0|
    requires Augmented(g, left0, right0, left1, right1, right0[irhs])
    requires left1[ilhs] == left0[ilhs] && right1[irhs] == right0[irhs]
    ensures Augmented(g, left0, right0, left1[ilhs := irhs], right1[irhs := ilhs], ilhs)
  {
    var left2, right2 := left1[ilhs := irhs], right1[irhs := ilhs];
    assert g.Joins(right0[irhs], left1[right0[irhs]]);
    var r :| OneMoreUsed(right0, right1, r);
    assert OneMoreUsed(right0, right2, r);
    hide OneMoreUsed;
  }

  /** The search pushed the left node at `irhs` elsewhere, so `ilhs` takes its place. */
  lemma AugmentThroughUsedNode(g: MatchMatrix, left0: seq<nat>, right0: seq<nat>, seen: seq<bool>,
                               left1: seq<nat>, right1: seq<nat>, ilhs: nat, irhs: nat, closed: set<nat>)
    requires g.Valid() && MutuallyReferent(g, left0, right0) && |seen| == |right0|
    requires IsClosed(g, right0, closed)
    requires g.Joins(ilhs, irhs) && right0[irhs] != UNUSED && !seen[irhs]
    requires IsSettled(left0, seen, ilhs)
    requires Found(g, left0, right0, seen[irhs := true], left1, right1, right0[irhs], closed)
    ensures Found(g, left0, right0, seen, left1[ilhs := irhs], right1[irhs := ilhs], ilhs, closed)
  {
    var next := right0[irhs];
    assert irhs !in closed;
    assert left1[ilhs] == left0[ilhs] && right1[irhs] == next;
    AugmentedThroughUsedNode(g, left0, right0, left1, right1, ilhs, irhs);
    hide Augmented, IsClosed;
  }

  lemma FoundForFewerSeen(g: MatchMatrix, left0: seq<nat>, right0: seq<nat>, seen: seq<bool>, fewer: seq<bool>,
                          left1: seq<nat>, right1: seq<nat>, ilhs: nat, closed: set<nat>)
    requires g.Valid() && ilhs < |left0| && |seen| == |fewer| == |right0|
    requires Found(g, left0, right0, seen, left1, right1, ilhs, closed)
    requires forall r :: 0 <= r < |fewer| && fewer[r] ==> seen[r]
    ensures Found(g, left0, right0, fewer, left1, right1, ilhs, closed)
  {
  }

  lemma SeeingOneMore(seen0: seq<bool>, seen1: seq<bool>, r: nat)
    requires |seen0| == |seen1| && r < |seen1| && !seen1[r]
    requires forall q :: 0 <= q < |seen0| && seen0[q] ==> seen1[q]
    ensures |Unmarked(seen1[r := true])| < |Unmarked(seen0)|
  {
    assert Unmarked(seen1) == Unmarked(seen1[r := true]) + {r};
    SubsetSize(Unmarked(seen1), Unmarked(seen0));
  }

  // ---------- Maximality ----------

  /** The end of `e` in the vertex cover made of `closed` and the left nodes matched outside it. */
  ghost function CoverOf(left: seq<nat>, closed: set<nat>, e: Edge): nat {
    if e.1 in closed || e.0 >= |left| then e.1 else left[e.0]
  }

  /**
   * Koenig's certificate: when every unmatched left node stays in a closed set,
   * no matching has more edges than there are used right nodes.
   */
  lemma ClosedSetBoundsMatchings(g: MatchMatrix, left: seq<nat>, right: seq<nat>, closed: set<nat>, m: set<Edge>)
    requires g.Valid() && MutuallyReferent(g, left, right)
    requires IsClosed(g, right, closed)
    requires forall l :: 0 <= l < |left| && left[l] == UNUSED ==> StaysIn(g, l, closed)
    requires IsMatching(g, m)
    ensures |m| <= |UsedRights(right)|
  {
    var f := (e: Edge) => CoverOf(left, closed, e);
    forall e | e in m
      ensures f(e) in UsedRights(right)
      ensures f(e) in closed <==> e.1 in closed
    {
      assert g.Joins(e.0, e.1);
      if e.1 !in closed {
        assert !StaysIn(g, e.0, closed);
        assert left[e.0] != UNUSED;
        assert right[left[e.0]] == e.0;
      }
    }
    assert InjectiveOn(m, f);
    InjectionBound(m, UsedRights(right), f);
  }

  /** A full assignment is itself a matching, so a maximum one covers every right node. */
  lemma AssignmentIsMatching(g: MatchMatrix, lhsOf: seq<nat>) returns (m: set<Edge>)
    requires g.Valid() && IsFullAssignment(g, lhsOf)
    ensures IsMatching(g, m) && |m| >= g.rhsSize
  {
    m := {};
    for r := 0 to g.rhsSize
      invariant |m| == r
      invariant forall e :: e in m ==> e.1 < r && e.0 == lhsOf[e.1]
    {
      m := m + {(lhsOf[r], r)};
    }
    forall e, f | e in m && f in m && e != f
      ensures e.0 != f.0 && e.1 != f.1
    {
      assert e.1 < f.1 || f.1 < e.1;
    }
  }

  lemma CoveringMatchingAssigns(g: MatchMatrix, pairs: seq<Edge>) returns (lhsOf: seq<nat>)
    requires g.Valid() && IsMatching(g, set e | e in pairs)
    requires |set e | e in pairs| == g.rhsSize
    ensures IsFullAssignment(g, lhsOf)
  {
    var m := set e | e in pairs;
    hide IsMatching, IsFullAssignment;
    lhsOf := [];
    while |lhsOf| < g.rhsSize
      invariant |lhsOf| <= g.rhsSize
      invariant forall r :: 0 <= r < |lhsOf| ==> (lhsOf[r], r) in m
    {
      var l := EdgeAt(g, m, |lhsOf|);
      lhsOf := lhsOf + [l];
    }
    ChosenEdgesAssign(g, m, lhsOf);
  }

  /** A matching with as many edges as there are right nodes has one at each. */
  lemma EdgeAt(g: MatchMatrix, m: set<Edge>, r: nat) returns (l: nat)
    requires g.Valid() && IsMatching(g, m) && |m| == g.rhsSize && r < g.rhsSize
    ensures (l, r) in m
  {
    var rights := set e | e in m :: e.1;
    InjectionBound(m, rights, (e: Edge) => e.1);
    SubsetSize(rights, Below(g.rhsSize));
    assert r in rights;
    var e :| e in m && e.1 == r;
    assert e == (e.0, r);
    l := e.0;
  }

  lemma ChosenEdgesAssign(g: MatchMatrix, m: set<Edge>, lhsOf: seq<nat>)
    requires g.Valid() && IsMatching(g, m) && |lhsOf| == g.rhsSize
    requires forall r :: 0 <= r < |lhsOf| ==> (lhsOf[r], r) in m
    ensures IsFullAssignment(g, lhsOf)
  {
    forall r | 0 <= r < |lhsOf|
      ensures g.Joins(lhsOf[r], r)
    {
      assert (lhsOf[r], r) in m;
    }
    forall r, q | 0 <= r < q < |lhsOf|
      ensures lhsOf[r] != lhsOf[q]
    {
      assert (lhsOf[r], r) in m && (lhsOf[q], q) in m;
    }
  }

  /** A maximum matching covers all right nodes exactly when a full assignment exists. */
  lemma FullAssignmentIffMaximumCovers(g: MatchMatrix, pairs: seq<Edge>)
    requires g.Valid() && IsMaximum(g, pairs)
    ensures |pairs| == g.rhsSize <==> exists lhsOf :: IsFullAssignment(g, lhsOf)
  {
    var m := set e | e in pairs;
    PairsAreDistinct(pairs);
    InjectionBound(m, Below(g.rhsSize), (e: Edge) => e.1);
    if exists lhsOf :: IsFullAssignment(g, lhsOf) {
      var lhsOf :| IsFullAssignment(g, lhsOf);
      var full := AssignmentIsMatching(g, lhsOf);
    }
    if |pairs| == g.rhsSize {
      var lhsOf := CoveringMatchingAssigns(g, pairs);
    }
  }

  lemma {:induction false} PairsAreDistinct(pairs: seq<Edge>)
    requires forall i, j :: 0 <= i < j < |pairs| ==> pairs[i].0 < pairs[j].0
    ensures |set e | e in pairs| == |pairs|
  {
    if pairs != [] {
      var front := pairs[..|pairs| - 1];
      PairsAreDistinct(front);
      var last := pairs[|pairs| - 1];
      assert (set e | e in pairs) == (set e | e in front) + {last};
    }
  }

  /** A success from a fresh search leaves earlier dead ends dead: closed sets are never entered. */
  lemma SuccessKeepsClosed(g: MatchMatrix, left0: seq<nat>, right0: seq<nat>, seen: seq<bool>,
                           left1: seq<nat>, right1: seq<nat>, ilhs: nat, closed: set<nat>)
    requires g.Valid() && MutuallyReferent(g, left0, right0) && |seen| == |right0| && ilhs < |left0|
    requires left0[ilhs] == UNUSED && IsClosed(g, right0, closed)
    requires Found(g, left0, right0, seen, left1, right1, ilhs, closed)
    ensures MutuallyReferent(g, left1, right1) && IsClosed(g, right1, closed)
    ensures forall l :: 0 <= l < |left0| ==> (left1[l] == UNUSED <==> left0[l] == UNUSED && l != ilhs)
  {
  }

  /** `pairs` lists (l, left[l]) for the used entries under `n`, in order. */
  ghost predicate LinkedPairs(left: seq<nat>, n: nat, pairs: seq<Edge>) {
    && (forall i, j :: 0 <= i < j < |pairs| ==> pairs[i].0 < pairs[j].0)
    && (forall e :: e in pairs ==> e.0 < n && e.0 < |left| && left[e.0] == e.1 != UNUSED)
    && (forall l :: 0 <= l < n && l < |left| && left[l] != UNUSED ==> (l, left[l]) in pairs)
  }

  lemma LinkedPairsAreMaximum(g: MatchMatrix, left: seq<nat>, right: seq<nat>, closed: set<nat>, pairs: seq<Edge>)
    requires g.Valid() && MutuallyReferent(g, left, right)
    requires IsClosed(g, right, closed)
    requires forall l :: 0 <= l < |left| && left[l] == UNUSED ==> StaysIn(g, l, closed)
    requires LinkedPairs(left, |left|, pairs)
    ensures IsMaximum(g, pairs)
  {
    var m := set e | e in pairs;
    PairsAreDistinct(pairs);
    InjectionBound(UsedRights(right), m, (r: nat) => if r < |right| then (right[r], r) else (0, r));
    forall other | IsMatching(g, other)
      ensures |other| <= |pairs|
    {
      ClosedSetBoundsMatchings(g, left, right, closed, other);
    }
  }

  // ---------- The matcher ----------

  class MaxBipartiteMatchState {
    const graph: MatchMatrix
    const left: array<nat>
    const right: array<nat>

    ghost predicate Valid()
      reads left, right
    {
      graph.Valid() && left != right && MutuallyReferent(graph, left[..], right[..])
    }

    constructor (g: MatchMatrix)
      requires g.Valid()
      ensures Valid() && graph == g && fresh(left) && fresh(right)
      ensures forall l :: 0 <= l < left.Length ==> left[l] == UNUSED
      ensures forall r :: 0 <= r < right.Length ==> right[r] == UNUSED
    {
      graph := g;
      left := new nat[g.LhsSize()](_ => UNUSED);
      right := new nat[g.rhsSize](_ => UNUSED);
    }

    /**
     * Searches for an augmenting path from `ilhs`. `closed` is any set of right
     * nodes that earlier failures closed: success never touches it.
     */
    method TryAugment(ilhs: nat, seen: array<bool>, ghost closed: set<nat>) returns (ok: bool)
      requires Valid() && ilhs < left.Length && seen.Length == right.Length
      requires IsSettled(left[..], seen[..], ilhs)
      requires IsClosed(graph, right[..], closed)
      modifies left, right, seen
      ensures forall r :: 0 <= r < seen.Length && old(seen[r]) ==> seen[r]
      ensures ok ==> Found(graph, old(left[..]), old(right[..]), old(seen[..]), left[..], right[..], ilhs, closed)
      ensures !ok ==> left[..] == old(left[..]) && right[..] == old(right[..])
      ensures !ok ==> DeadEnd(graph, right[..], old(seen[..]), seen[..], ilhs)
      decreases |Unmarked(seen[..])|
    {
      ghost var left0, right0, seen0 := left[..], right[..], seen[..];
      for irhs := 0 to graph.rhsSize
        invariant left[..] == left0 && right[..] == right0
        invariant forall r :: 0 <= r < seen.Length && seen0[r] ==> seen[r]
        invariant forall r :: 0 <= r < irhs && graph.HasEdge(ilhs, r) ==> seen[r]
        invariant forall r :: 0 <= r < seen.Length && seen[r] && !seen0[r] ==>
                    right0[r] != UNUSED && StaysIn(graph, right0[r], Marked(seen[..]))
      {
        if seen[irhs] {
          continue;
        }
        if !graph.HasEdge(ilhs, irhs) {
          continue;
        }
        ghost var before := seen[..];
        seen[irhs] := true;
        if right[irhs] == UNUSED {
          AugmentAtFreeNode(graph, left0, right0, seen0, ilhs, irhs, closed);
          left[ilhs], right[irhs] := irhs, ilhs;
          return true;
        }
        SeeingOneMore(seen0, before, irhs);
        var found := TryAugment(right[irhs], seen, closed);
        if found {
          FoundForFewerSeen(graph, left0, right0, before[irhs := true], seen0[irhs := true],
                            left[..], right[..], right0[irhs], closed);
          AugmentThroughUsedNode(graph, left0, right0, seen0, left[..], right[..], ilhs, irhs, closed);
          left[ilhs], right[irhs] := irhs, ilhs;
          return true;
        }
      }
      return false;
    }

    /** One pass over the left nodes, then the used left entries in order. */
    method Compute() returns (result: seq<Edge>)
      requires Valid()
      requires forall l :: 0 <= l < left.Length ==> left[l] == UNUSED
      requires forall r :: 0 <= r < right.Length ==> right[r] == UNUSED
      modifies left, right
      ensures Valid() && IsMaximum(graph, result)
    {
      ghost var closed: set<nat> := {};
      for ilhs := 0 to graph.LhsSize()
        invariant Valid() && IsClosed(graph, right[..], closed)
        invariant forall l :: ilhs <= l < left.Length ==> left[l] == UNUSED
        invariant forall l :: 0 <= l < ilhs && left[l] == UNUSED ==> StaysIn(graph, l, closed)
      {
        assert left[ilhs] == UNUSED;
        var seen := new bool[graph.rhsSize](_ => false);
        ghost var left0, right0, seen0 := left[..], right[..], seen[..];
        var ok := TryAugment(ilhs, seen, closed);
        if ok {
          SuccessKeepsClosed(graph, left0, right0, seen0, left[..], right[..], ilhs, closed);
        } else {
          closed := closed + Marked(seen[..]);
        }
      }
      result := [];
      for ilhs := 0 to left.Length
        invariant LinkedPairs(left[..], ilhs, result)
      {
        var irhs := left[ilhs];
        if irhs == UNUSED {
          continue;
        }
        result := result + [(ilhs, irhs)];
      }
      LinkedPairsAreMaximum(graph, left[..], right[..], closed, result);
    }
  }

  method FindMaxBipartiteMatching(g: MatchMatrix) returns (pairs: seq<Edge>)
    requires g.Valid()
    ensures IsMaximum(g, pairs)
  {
    var state := new MaxBipartiteMatchState(g);
    pairs := state.Compute();
  }

  /** True exactly when all matchers can be given distinct elements. */
  method FindPairing(matrix: MatchMatrix) returns (result: bool)
    requires matrix.Valid()
    ensures result <==> exists lhsOf :: IsFullAssignment(matrix, lhsOf)
  {
    var matches := FindMaxBipartiteMatching(matrix);
    FullAssignmentIffMaximumCovers(matrix, matches);
    result := |matches| == matrix.rhsSize;
  }
}

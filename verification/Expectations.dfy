/**
 * Expectations on mock calls and their prerequisites: who may handle a call,
 * what a call retires, and what sequences make of the order of calls.
 */
module Expectations {

  /** What `EXPECT_CALL` fixes; expectations are numbered in the order they are made. */
  datatype Spec = Spec(min: int, max: int, prerequisites: seq<nat>, retiresOnSaturation: bool)

  const NONE: int := -1

  /** `last` is the last expectation of each sequence; `members` lists all of them. */
  datatype State = State(specs: seq<Spec>, counts: seq<nat>, retired: seq<bool>, last: seq<int>, members: seq<seq<nat>>)

  /** Prerequisites were made before what they are a prerequisite of. */
  ghost predicate AreOrdered(specs: seq<Spec>) {
    forall e, k :: 0 <= e < |specs| && 0 <= k < |specs[e].prerequisites| ==> specs[e].prerequisites[k] < e
  }

  ghost predicate Shaped(s: State) {
    AreOrdered(s.specs) && |s.counts| == |s.retired| == |s.specs| && |s.members| == |s.last|
  }

  predicate IsSatisfied(spec: Spec, count: nat) {
    spec.min <= count <= spec.max
  }

  predicate IsSaturated(spec: Spec, count: nat) {
    count >= spec.max
  }

  /** `p` is a prerequisite of `e`, or a prerequisite of one, and so on. */
  ghost predicate Precedes(specs: seq<Spec>, p: nat, e: nat)
    requires AreOrdered(specs) && e < |specs|
    decreases e
  {
    exists k :: 0 <= k < |specs[e].prerequisites|
        && (p == specs[e].prerequisites[k] || Precedes(specs, p, specs[e].prerequisites[k]))
  }

  lemma {:induction false} PrecedesIsEarlier(specs: seq<Spec>, p: nat, e: nat)
    requires AreOrdered(specs) && e < |specs| && Precedes(specs, p, e)
    ensures p < e
    decreases e
  {
    var k :| 0 <= k < |specs[e].prerequisites|
        && (p == specs[e].prerequisites[k] || Precedes(specs, p, specs[e].prerequisites[k]));
    if p != specs[e].prerequisites[k] {
      PrecedesIsEarlier(specs, p, specs[e].prerequisites[k]);
    }
  }

  lemma {:induction false} PrecedesIsTransitive(specs: seq<Spec>, p: nat, q: nat, e: nat)
    requires AreOrdered(specs) && e < |specs| && q < |specs| && Precedes(specs, p, q) && Precedes(specs, q, e)
    ensures Precedes(specs, p, e)
    decreases e
  {
    var k :| 0 <= k < |specs[e].prerequisites|
        && (q == specs[e].prerequisites[k] || Precedes(specs, q, specs[e].prerequisites[k]));
    if q != specs[e].prerequisites[k] {
      PrecedesIsTransitive(specs, p, q, specs[e].prerequisites[k]);
    }
  }

  /** Nothing is retired before all its prerequisites are. */
  ghost predicate IsClosed(specs: seq<Spec>, retired: seq<bool>)
    requires AreOrdered(specs) && |retired| == |specs|
  {
    forall e, k :: 0 <= e < |specs| && retired[e] && 0 <= k < |specs[e].prerequisites| ==>
          retired[specs[e].prerequisites[k]]
  }

  lemma {:induction false} ClosedRetiresAll(specs: seq<Spec>, retired: seq<bool>, p: nat, e: nat)
    requires AreOrdered(specs) && |retired| == |specs| && e < |specs| && p < |specs|
    requires IsClosed(specs, retired) && retired[e] && Precedes(specs, p, e)
    ensures retired[p]
    decreases e
  {
    var k :| 0 <= k < |specs[e].prerequisites|
        && (p == specs[e].prerequisites[k] || Precedes(specs, p, specs[e].prerequisites[k]));
    if p != specs[e].prerequisites[k] {
      ClosedRetiresAll(specs, retired, p, specs[e].prerequisites[k]);
    }
  }

  // ---------- The walks over prerequisites ----------

  ghost predicate Satisfied(s: State, e: nat)
    requires Shaped(s) && e < |s.specs|
  {
    IsSatisfied(s.specs[e], s.counts[e])
  }

  /** Every direct and indirect prerequisite is satisfied. */
  ghost predicate IsReady(s: State, e: nat)
    requires Shaped(s) && e < |s.specs|
  {
    forall p: nat :: p < |s.specs| && Precedes(s.specs, p, e) ==> Satisfied(s, p)
  }

  /** The prerequisites among the first `n` are satisfied, and ready themselves. */
  ghost predicate AreReadyUpTo(s: State, e: nat, n: nat)
    requires Shaped(s) && e < |s.specs| && n <= |s.specs[e].prerequisites|
  {
    forall k :: 0 <= k < n ==> Satisfied(s, s.specs[e].prerequisites[k]) && IsReady(s, s.specs[e].prerequisites[k])
  }

  lemma ReadyIff(s: State, e: nat)
    requires Shaped(s) && e < |s.specs|
    ensures IsReady(s, e) <==> AreReadyUpTo(s, e, |s.specs[e].prerequisites|)
  {
    var ps := s.specs[e].prerequisites;
    if IsReady(s, e) {
      forall k | 0 <= k < |ps|
        ensures Satisfied(s, ps[k]) && IsReady(s, ps[k])
      {
        assert Precedes(s.specs, ps[k], e);
        forall p: nat | p < |s.specs| && Precedes(s.specs, p, ps[k])
          ensures Satisfied(s, p)
        {
          assert Precedes(s.specs, p, e);
        }
      }
    }
  }

  /**
   * Unsatisfied prerequisites as the reporting walk finds them, past satisfied
   * ones only where they were never called.
   */
  ghost function Unsatisfied(s: State, e: nat): set<nat>
    requires Shaped(s) && e < |s.specs|
    decreases e, |s.specs[e].prerequisites| + 1
  {
    UnsatisfiedUpTo(s, e, |s.specs[e].prerequisites|)
  }

  ghost function UnsatisfiedUpTo(s: State, e: nat, n: nat): set<nat>
    requires Shaped(s) && e < |s.specs| && n <= |s.specs[e].prerequisites|
    decreases e, n
  {
    if n == 0 then {}
    else
      var p := s.specs[e].prerequisites[n - 1];
      UnsatisfiedUpTo(s, e, n - 1) +
      (if !Satisfied(s, p) then {p} else if s.counts[p] == 0 then Unsatisfied(s, p) else {})
  }

  /** A satisfied expectation that was called has only satisfied prerequisites. */
  ghost predicate CalledAreReady(s: State)
    requires Shaped(s)
  {
    forall e :: 0 <= e < |s.specs| && s.counts[e] > 0 && Satisfied(s, e) ==> IsReady(s, e)
  }

  /** The walk reports nothing exactly when all prerequisites are satisfied. */
  lemma {:induction false} NothingUnsatisfiedIff(s: State, e: nat)
    requires Shaped(s) && e < |s.specs| && CalledAreReady(s)
    ensures Unsatisfied(s, e) == {} <==> IsReady(s, e)
    decreases e, |s.specs[e].prerequisites| + 1
  {
    ReadyIff(s, e);
    NoneUpToIff(s, e, |s.specs[e].prerequisites|);
  }

  lemma {:induction false} NoneUpToIff(s: State, e: nat, n: nat)
    requires Shaped(s) && e < |s.specs| && n <= |s.specs[e].prerequisites| && CalledAreReady(s)
    ensures UnsatisfiedUpTo(s, e, n) == {} <==> AreReadyUpTo(s, e, n)
    decreases e, n
  {
    if n > 0 {
      var p := s.specs[e].prerequisites[n - 1];
      NoneUpToIff(s, e, n - 1);
      NothingUnsatisfiedIff(s, p);
      assert AreReadyUpTo(s, e, n) <==> AreReadyUpTo(s, e, n - 1) && Satisfied(s, p) && IsReady(s, p);
    }
  }

  /** What the walk reports are prerequisites, and unsatisfied. */
  lemma {:induction false} UnsatisfiedAreUnsatisfied(s: State, e: nat, n: nat, p: nat)
    requires Shaped(s) && e < |s.specs| && n <= |s.specs[e].prerequisites| && p in UnsatisfiedUpTo(s, e, n)
    ensures p < |s.specs| && Precedes(s.specs, p, e) && !Satisfied(s, p)
    decreases e, n
  {
    var q := s.specs[e].prerequisites[n - 1];
    if p in UnsatisfiedUpTo(s, e, n - 1) {
      UnsatisfiedAreUnsatisfied(s, e, n - 1, p);
    } else if Satisfied(s, q) {
      UnsatisfiedAreUnsatisfied(s, q, |s.specs[q].prerequisites|, p);
    }
  }

  /**
   * Every direct prerequisite that is not satisfied is reported, and so is what
   * a satisfied one never called reports.
   */
  lemma {:induction false} UnsatisfiedAreReported(s: State, e: nat, n: nat, k: nat)
    requires Shaped(s) && e < |s.specs| && k < n <= |s.specs[e].prerequisites|
    ensures var p := s.specs[e].prerequisites[k];
            if !Satisfied(s, p) then p in UnsatisfiedUpTo(s, e, n)
            else s.counts[p] == 0 ==> Unsatisfied(s, p) <= UnsatisfiedUpTo(s, e, n)
  {
    if k < n - 1 {
      UnsatisfiedAreReported(s, e, n - 1, k);
    }
  }

  // ---------- Actions ----------

  /** Some call whose arguments a set of expectations matches, or one more `EXPECT_CALL`. */
  datatype Action =
    | Call(matching: set<nat>)
    | Expect(min: int, max: int, retiresOnSaturation: bool, inSequences: seq<nat>, after: seq<nat>)

  ghost predicate Enabled(s: State, a: Action) {
    a.Expect? ==>
      && (forall k :: 0 <= k < |a.inSequences| ==> a.inSequences[k] < |s.last|)
      && (forall k :: 0 <= k < |a.after| ==> a.after[k] < |s.specs|)
  }

  /** The newest active matching expectation among the first `n` whose prerequisites are satisfied. */
  ghost function HandlerUpTo(s: State, matching: set<nat>, n: nat): int
    requires Shaped(s) && n <= |s.specs|
  {
    if n == 0 then NONE
    else if !s.retired[n - 1] && IsReady(s, n - 1) && n - 1 in matching then n - 1
    else HandlerUpTo(s, matching, n - 1)
  }

  ghost function Handler(s: State, matching: set<nat>): int
    requires Shaped(s)
  {
    HandlerUpTo(s, matching, |s.specs|)
  }

  /** After `RetireAllPreRequisites` of an active expectation. */
  ghost function RetiredBefore(specs: seq<Spec>, retired: seq<bool>, e: nat, n: nat): (r: seq<bool>)
    requires AreOrdered(specs) && |retired| == |specs| && e < |specs| && n <= |specs|
    ensures |r| == n && forall p :: 0 <= p < n ==> (r[p] <==> retired[p] || Precedes(specs, p, e))
  {
    if n == 0 then []
    else RetiredBefore(specs, retired, e, n - 1) + [retired[n - 1] || Precedes(specs, n - 1, e)]
  }

  ghost function Called(s: State, e: nat): State
    requires Shaped(s) && e < |s.specs|
  {
    var t := s.(counts := s.counts[e := s.counts[e] + 1]);
    if IsSaturated(s.specs[e], s.counts[e]) then t
    else
      var retired := RetiredBefore(s.specs, s.retired, e, |s.specs|);
      t.(retired := if s.specs[e].retiresOnSaturation
          && IsSaturated(s.specs[e], t.counts[e]) then retired[e := true] else retired)
  }

  /** `Sequence::AddExpectation`, sequence after sequence. */
  function Enrolled(last: seq<int>, members: seq<seq<nat>>, prerequisites: seq<nat>, id: nat, inSequences: seq<nat>)
    : (seq<int>, seq<seq<nat>>, seq<nat>)
    requires |members| == |last| && forall k :: 0 <= k < |inSequences| ==> inSequences[k] < |last|
    decreases |inSequences|
  {
    if inSequences == [] then (last, members, prerequisites)
    else
      var q, rest := inSequences[0], inSequences[1..];
      if last[q] == id then Enrolled(last, members, prerequisites, id, rest)
      else
        Enrolled(last[q := id], members[q := members[q] + [id]],
                 if last[q] >= 0 then prerequisites + [last[q]] else prerequisites, id, rest)
  }

  ghost function Next(s: State, a: Action): State
    requires Shaped(s) && Enabled(s, a)
  {
    match a
    case Call(matching) =>
      var e := Handler(s, matching);
      if 0 <= e < |s.specs| then Called(s, e) else s
    case Expect(min, max, retiresOnSaturation, inSequences, after) =>
      var (last, members, prerequisites) := Enrolled(s.last, s.members, [], |s.specs|, inSequences);
      State(s.specs + [Spec(min, max, prerequisites + after, retiresOnSaturation)], s.counts + [0], s.retired + [false],
            last, members)
  }

  lemma {:induction false} HandlerIsReady(s: State, matching: set<nat>, n: nat)
    requires Shaped(s) && n <= |s.specs|
    ensures var e := HandlerUpTo(s, matching, n);
            e == NONE || (0 <= e < n && !s.retired[e] && IsReady(s, e) && e in matching)
    ensures forall d :: HandlerUpTo(s, matching, n) < d < n ==> s.retired[d] || !IsReady(s, d) || d !in matching
  {
    if n > 0 {
      HandlerIsReady(s, matching, n - 1);
    }
  }

  // ---------- The expectations, updated in place ----------

  class Registry {
    var specs: seq<Spec>
    var counts: seq<nat>
    var retired: seq<bool>
    var last: seq<int>
    ghost var members: seq<seq<nat>>

    ghost function View(): State
      reads this
    {
      State(specs, counts, retired, last, members)
    }

    constructor (sequences: nat)
      ensures View() == State([], [], [], last, members) && |last| == |members| == sequences
      ensures forall q :: 0 <= q < sequences ==> last[q] == NONE && members[q] == []
    {
      specs, counts, retired := [], [], [];
      last, members := seq(sequences, _ => NONE), seq(sequences, _ => []);
    }

    /** Retires all prerequisites of `e`; does nothing if `e` is retired, as then they already are. */
    method RetireAllPreRequisites(e: nat)
      requires Shaped(View()) && e < |specs| && IsClosed(specs, retired)
      modifies this`retired
      ensures retired == RetiredBefore(specs, old(retired), e, |specs|) && IsClosed(specs, retired)
      decreases e, 1
    {
      hide IsClosed, Precedes;
      ghost var was := retired;
      if retired[e] {
        RetiredAlready(specs, retired, e);
        return;
      }
      for k := 0 to |specs[e].prerequisites|
        invariant |retired| == |specs| && IsClosed(specs, retired)
        invariant forall p :: 0 <= p < |specs| ==> (retired[p] <==> was[p] || PrecedesWithin(specs, p, e, k))
      {
        OneMoreWithin(specs, e, k);
        hide PrecedesWithin;
        RetirePreRequisite(e, specs[e].prerequisites[k]);
      }
      AllWithin(specs, e);
      assert retired == RetiredBefore(specs, was, e, |specs|);
    }

    /** The body of the loop: a prerequisite that is retired has its own prerequisites retired. */
    method RetirePreRequisite(ghost e: nat, p: nat)
      requires Shaped(View()) && p < e < |specs| && IsClosed(specs, retired)
      modifies this`retired
      ensures |retired| == |specs| && IsClosed(specs, retired)
      ensures forall d :: 0 <= d < |specs| ==> (retired[d] <==> old(retired)[d] || d == p || Precedes(specs, d, p))
      decreases e, 0
    {
      if retired[p] {
        RetiredAlready(specs, retired, p);
      } else {
        RetireAllPreRequisites(p);
        RetiringKeepsClosed(specs, retired, p);
        retired := retired[p := true];
      }
    }

    /** Whether all prerequisites of `e` are satisfied, direct and indirect. */
    method AllPrerequisitesAreSatisfied(e: nat) returns (ok: bool)
      requires Shaped(View()) && e < |specs|
      ensures ok <==> IsReady(View(), e)
      decreases e
    {
      hide IsReady;
      ReadyIff(View(), e);
      for k := 0 to |specs[e].prerequisites|
        invariant AreReadyUpTo(View(), e, k)
      {
        var p := specs[e].prerequisites[k];
        if !IsSatisfied(specs[p], counts[p]) {
          return false;
        }
        var ready := AllPrerequisitesAreSatisfied(p);
        if !ready {
          return false;
        }
      }
      return true;
    }

    /** Adds to `result` the unsatisfied prerequisites of `e`. */
    method FindUnsatisfiedPrerequisites(e: nat, result: set<nat>) returns (found: set<nat>)
      requires Shaped(View()) && e < |specs|
      ensures found == result + Unsatisfied(View(), e)
      decreases e
    {
      found := result;
      for k := 0 to |specs[e].prerequisites|
        invariant found == result + UnsatisfiedUpTo(View(), e, k)
      {
        var p := specs[e].prerequisites[k];
        if IsSatisfied(specs[p], counts[p]) {
          if counts[p] == 0 {
            found := FindUnsatisfiedPrerequisites(p, found);
          }
        } else {
          found := found + {p};
        }
      }
    }

    /** Searches from the newest expectation to the oldest. */
    method FindMatchingExpectation(matching: set<nat>) returns (e: int)
      requires Shaped(View())
      ensures e == Handler(View(), matching)
    {
      hide IsReady;
      for k := |specs| downto 0
        invariant Handler(View(), matching) == HandlerUpTo(View(), matching, k)
      {
        if !retired[k] {
          var ready := AllPrerequisitesAreSatisfied(k);
          if ready && k in matching {
            return k;
          }
        }
      }
      return NONE;
    }

    /** The bookkeeping of `GetActionForArguments`. */
    method GetActionForArguments(e: nat) returns (excessive: bool)
      requires Shaped(View()) && e < |specs| && IsClosed(specs, retired)
      modifies this`counts, this`retired
      ensures View() == Called(old(View()), e)
      ensures excessive <==> old(IsSaturated(specs[e], counts[e]))
    {
      if IsSaturated(specs[e], counts[e]) {
        counts := counts[e := counts[e] + 1];
        return true;
      }
      counts := counts[e := counts[e] + 1];
      RetireAllPreRequisites(e);
      if specs[e].retiresOnSaturation && IsSaturated(specs[e], counts[e]) {
        retired := retired[e := true];
      }
      return false;
    }

    method Invoke(matching: set<nat>)
      requires Shaped(View()) && IsClosed(specs, retired)
      modifies this`counts, this`retired
      ensures View() == Next(old(View()), Call(matching))
    {
      HandlerIsReady(View(), matching, |specs|);
      var e := FindMatchingExpectation(matching);
      if e != NONE {
        var excessive := GetActionForArguments(e);
      }
    }

    /** `AddExpectation` of expectation `id` for each of the sequences, in order. */
    method AddToSequences(id: nat, inSequences: seq<nat>) returns (prerequisites: seq<nat>)
      requires |members| == |last| && forall k :: 0 <= k < |inSequences| ==> inSequences[k] < |last|
      modifies this`last, this`members
      ensures (last, members, prerequisites) == Enrolled(old(last), old(members), [], id, inSequences)
    {
      prerequisites := [];
      for k := 0 to |inSequences|
        invariant |members| == |last| == |old(last)|
        invariant Enrolled(last, members, prerequisites, id, inSequences[k..]) ==
                    Enrolled(old(last), old(members), [], id, inSequences)
      {
        var q := inSequences[k];
        assert inSequences[k..][0] == q && inSequences[k..][1..] == inSequences[k + 1..];
        if last[q] != id {
          if last[q] >= 0 {
            prerequisites := prerequisites + [last[q]];
          }
          last := last[q := id];
          members := members[q := members[q] + [id]];
        }
      }
    }

    /** One `EXPECT_CALL`. */
    method AddExpectation(min: int, max: int, retiresOnSaturation: bool, inSequences: seq<nat>, after: seq<nat>)
      requires Shaped(View()) && Enabled(View(), Expect(min, max, retiresOnSaturation, inSequences, after))
      modifies this
      ensures View() == Next(old(View()), Expect(min, max, retiresOnSaturation, inSequences, after))
    {
      var prerequisites := AddToSequences(|specs|, inSequences);
      specs := specs + [Spec(min, max, prerequisites + after, retiresOnSaturation)];
      counts := counts + [0];
      retired := retired + [false];
    }
  }

  lemma RetiredAlready(specs: seq<Spec>, retired: seq<bool>, e: nat)
    requires AreOrdered(specs) && |retired| == |specs| && e < |specs| && IsClosed(specs, retired) && retired[e]
    ensures forall p :: 0 <= p < |specs| && Precedes(specs, p, e) ==> retired[p]
    ensures RetiredBefore(specs, retired, e, |specs|) == retired
  {
    forall p: nat | p < |specs| && Precedes(specs, p, e)
      ensures retired[p]
    {
      ClosedRetiresAll(specs, retired, p, e);
    }
  }

  lemma RetiringKeepsClosed(specs: seq<Spec>, retired: seq<bool>, e: nat)
    requires AreOrdered(specs) && |retired| == |specs| && e < |specs| && IsClosed(specs, retired)
    requires forall p :: 0 <= p < |specs| && Precedes(specs, p, e) ==> retired[p]
    ensures IsClosed(specs, retired[e := true])
  {
    forall k | 0 <= k < |specs[e].prerequisites|
      ensures retired[specs[e].prerequisites[k]]
    {
      assert Precedes(specs, specs[e].prerequisites[k], e);
    }
  }

  /** `p` precedes `e` by way of one of its first `n` prerequisites. */
  ghost predicate PrecedesWithin(specs: seq<Spec>, p: nat, e: nat, n: nat)
    requires AreOrdered(specs) && e < |specs| && n <= |specs[e].prerequisites|
  {
    exists k :: 0 <= k < n && (p == specs[e].prerequisites[k] || Precedes(specs, p, specs[e].prerequisites[k]))
  }

  lemma OneMoreWithinFor(specs: seq<Spec>, p: nat, e: nat, n: nat)
    requires AreOrdered(specs) && e < |specs| && n < |specs[e].prerequisites|
    ensures var q := specs[e].prerequisites[n];
            PrecedesWithin(specs, p, e, n + 1) <==> PrecedesWithin(specs, p, e, n) || p == q || Precedes(specs, p, q)
  {
    hide Precedes;
    var ps := specs[e].prerequisites;
    if PrecedesWithin(specs, p, e, n + 1) {
      var k :| 0 <= k < n + 1 && (p == ps[k] || Precedes(specs, p, ps[k]));
      assert k == n || PrecedesWithin(specs, p, e, n);
    }
    if PrecedesWithin(specs, p, e, n) {
      var k :| 0 <= k < n && (p == ps[k] || Precedes(specs, p, ps[k]));
      assert 0 <= k < n + 1 && (p == ps[k] || Precedes(specs, p, ps[k]));
    }
    if p == ps[n] || Precedes(specs, p, ps[n]) {
      assert 0 <= n < n + 1 && (p == ps[n] || Precedes(specs, p, ps[n]));
    }
  }

  lemma OneMoreWithin(specs: seq<Spec>, e: nat, n: nat)
    requires AreOrdered(specs) && e < |specs| && n < |specs[e].prerequisites|
    ensures var q := specs[e].prerequisites[n];
            forall p: nat :: PrecedesWithin(specs, p, e, n + 1) <==>
                PrecedesWithin(specs, p, e, n) || p == q || Precedes(specs, p, q)
  {
    hide Precedes, PrecedesWithin;
    var q := specs[e].prerequisites[n];
    forall p: nat
      ensures PrecedesWithin(specs, p, e, n + 1) <==>
        PrecedesWithin(specs, p, e, n) || p == q || Precedes(specs, p, q)
    {
      OneMoreWithinFor(specs, p, e, n);
    }
  }

  lemma AllWithin(specs: seq<Spec>, e: nat)
    requires AreOrdered(specs) && e < |specs|
    ensures forall p: nat :: PrecedesWithin(specs, p, e, |specs[e].prerequisites|) <==> Precedes(specs, p, e)
  {
  }

  // ---------- Invariant ----------

  /** An expectation that may be called and was has all its prerequisites satisfied and retired. */
  ghost predicate CallsRetired(s: State)
    requires Shaped(s)
  {
    forall e, p: nat ::
      0 <= e < |s.specs| && s.counts[e] > 0 && s.specs[e].max > 0 && p < |s.specs| && Precedes(s.specs, p, e) ==>
        s.retired[p] && Satisfied(s, p)
  }

  ghost function PrerequisitesOf(specs: seq<Spec>, latest: seq<nat>, id: nat): seq<nat> {
    if id < |specs| then specs[id].prerequisites else latest
  }

  /** Each member of a sequence is a prerequisite of the next; `latest` are those of the expectation being made. */
  ghost predicate IsChain(specs: seq<Spec>, latest: seq<nat>, list: seq<nat>) {
    && (forall k :: 0 <= k < |list| ==> list[k] <= |specs|)
    && (forall k :: 0 < k < |list| ==> list[k - 1] < list[k] && list[k - 1] in PrerequisitesOf(specs, latest, list[k]))
  }

  ghost function LastOf(list: seq<nat>): int {
    if list == [] then NONE else list[|list| - 1]
  }

  ghost predicate AreChains(specs: seq<Spec>, latest: seq<nat>, last: seq<int>, members: seq<seq<nat>>) {
    && |members| == |last|
    && forall q :: 0 <= q < |last| ==> last[q] == LastOf(members[q]) && IsChain(specs, latest, members[q])
  }

  ghost predicate EndBefore(last: seq<int>, n: nat) {
    forall q :: 0 <= q < |last| ==> last[q] < n
  }

  ghost predicate Inv(s: State) {
    && Shaped(s) && IsClosed(s.specs, s.retired) && CallsRetired(s)
    && AreChains(s.specs, [], s.last, s.members) && EndBefore(s.last, |s.specs|)
  }

  lemma {:induction false} EnrolledIsChained(specs: seq<Spec>, last: seq<int>, members: seq<seq<nat>>,
                                             prerequisites: seq<nat>, inSequences: seq<nat>)
    requires AreChains(specs, prerequisites, last, members) && EndBefore(last, |specs| + 1)
    requires forall k :: 0 <= k < |inSequences| ==> inSequences[k] < |last|
    requires forall k :: 0 <= k < |prerequisites| ==> prerequisites[k] < |specs|
    ensures var (last', members', prerequisites') := Enrolled(last, members, prerequisites, |specs|, inSequences);
            && AreChains(specs, prerequisites', last', members') && EndBefore(last', |specs| + 1)
            && forall k :: 0 <= k < |prerequisites'| ==> prerequisites'[k] < |specs|
    decreases |inSequences|
  {
    if inSequences != [] {
      var q, rest, id := inSequences[0], inSequences[1..], |specs|;
      if last[q] == id {
        EnrolledIsChained(specs, last, members, prerequisites, rest);
      } else {
        var more := if last[q] >= 0 then prerequisites + [last[q]] else prerequisites;
        OneMoreMember(specs, prerequisites, more, last, members, q);
        EnrolledIsChained(specs, last[q := id], members[q := members[q] + [id]], more, rest);
      }
    }
  }

  lemma OneMoreMember(specs: seq<Spec>, prerequisites: seq<nat>, more: seq<nat>,
                      last: seq<int>, members: seq<seq<nat>>, q: nat)
    requires AreChains(specs, prerequisites, last, members) && EndBefore(last, |specs| + 1)
    requires q < |last| && last[q] != |specs|
    requires more == if last[q] >= 0 then prerequisites + [last[q]] else prerequisites
    ensures AreChains(specs, more, last[q := |specs|], members[q := members[q] + [|specs|]])
  {
    assert forall p :: p in prerequisites ==> p in more;
    forall r | 0 <= r < |last|
      ensures IsChain(specs, more, members[r])
    {
      assert IsChain(specs, prerequisites, members[r]);
    }
    var list := members[q] + [|specs|];
    assert last[q] == LastOf(members[q]) && (last[q] >= 0 ==> last[q] in more);
    assert IsChain(specs, more, list);
  }

  lemma {:induction false} PrecedesOfExtension(specs: seq<Spec>, spec: Spec, p: nat, e: nat)
    requires AreOrdered(specs) && AreOrdered(specs + [spec]) && e < |specs|
    ensures Precedes(specs + [spec], p, e) <==> Precedes(specs, p, e)
    decreases e
  {
    var wider := specs + [spec];
    assert wider[e] == specs[e];
    forall k | 0 <= k < |specs[e].prerequisites|
      ensures Precedes(wider, p, specs[e].prerequisites[k]) <==> Precedes(specs, p, specs[e].prerequisites[k])
    {
      PrecedesOfExtension(specs, spec, p, specs[e].prerequisites[k]);
    }
  }

  lemma ExpectKeepsInv(s: State, a: Action)
    requires Inv(s) && Enabled(s, a) && a.Expect?
    ensures Inv(Next(s, a))
  {
    EnrolledIsChained(s.specs, s.last, s.members, [], a.inSequences);
    var t := Next(s, a);
    var spec := t.specs[|s.specs|];
    assert forall e :: 0 <= e < |s.specs| ==> t.specs[e] == s.specs[e];
    assert AreOrdered(t.specs);
    forall e, p: nat | 0 <= e < |t.specs| && t.counts[e] > 0 && t.specs[e].max > 0 && p < |t.specs|
        && Precedes(t.specs, p, e)
      ensures t.retired[p] && Satisfied(t, p)
    {
      PrecedesOfExtension(s.specs, spec, p, e);
      PrecedesIsEarlier(t.specs, p, e);
    }
    var (last, members, latest) := Enrolled(s.last, s.members, [], |s.specs|, a.inSequences);
    ChainsOfExtension(s.specs, spec, latest, last, members);
  }

  lemma ChainsOfExtension(specs: seq<Spec>, spec: Spec, latest: seq<nat>, last: seq<int>, members: seq<seq<nat>>)
    requires AreChains(specs, latest, last, members) && EndBefore(last, |specs| + 1)
    requires forall p :: p in latest ==> p in spec.prerequisites
    ensures AreChains(specs + [spec], [], last, members)
  {
    forall q | 0 <= q < |last|
      ensures IsChain(specs + [spec], [], members[q])
    {
      assert IsChain(specs, latest, members[q]);
      assert forall k :: 0 < k < |members[q]| ==>
        PrerequisitesOf(specs + [spec], [], members[q][k]) ==
          if members[q][k] < |specs| then specs[members[q][k]].prerequisites else spec.prerequisites;
    }
  }

  lemma RetiredBeforeIsClosed(specs: seq<Spec>, retired: seq<bool>, e: nat)
    requires AreOrdered(specs) && |retired| == |specs| && e < |specs| && IsClosed(specs, retired)
    ensures IsClosed(specs, RetiredBefore(specs, retired, e, |specs|))
  {
    var now := RetiredBefore(specs, retired, e, |specs|);
    forall q, k | 0 <= q < |specs| && now[q] && 0 <= k < |specs[q].prerequisites|
      ensures now[specs[q].prerequisites[k]]
    {
      assert Precedes(specs, specs[q].prerequisites[k], q);
      if Precedes(specs, q, e) {
        PrecedesIsTransitive(specs, specs[q].prerequisites[k], q, e);
      }
    }
  }

  lemma CallKeepsInv(s: State, e: nat)
    requires Inv(s) && e < |s.specs| && !s.retired[e] && IsReady(s, e)
    ensures Inv(Called(s, e))
  {
    var t := Called(s, e);
    forall d, p: nat | 0 <= d < |s.specs| && t.counts[d] > 0 && s.specs[d].max > 0 && p < |s.specs|
        && Precedes(s.specs, p, d)
      ensures t.retired[p] && Satisfied(t, p)
    {
      PrecedesIsEarlier(s.specs, p, d);
      if d != e {
        assert s.retired[p];
      }
    }
    if !IsSaturated(s.specs[e], s.counts[e]) {
      RetiredBeforeIsClosed(s.specs, s.retired, e);
      RetiringKeepsClosed(s.specs, RetiredBefore(s.specs, s.retired, e, |s.specs|), e);
    }
  }

  /** Every call and every new expectation keeps the retired set closed and the sequences chained. */
  lemma ActionKeepsInv(s: State, a: Action)
    requires Inv(s) && Enabled(s, a)
    ensures Inv(Next(s, a))
  {
    match a
    case Call(matching) =>
      HandlerIsReady(s, matching, |s.specs|);
      if Handler(s, matching) != NONE {
        CallKeepsInv(s, Handler(s, matching));
      }
    case Expect(_, _, _, _, _) => ExpectKeepsInv(s, a);
  }

  // ---------- Whole runs ----------

  ghost predicate IsInitial(s: State) {
    && s.specs == [] && s.counts == [] && s.retired == [] && |s.members| == |s.last|
    && forall q :: 0 <= q < |s.last| ==> s.last[q] == NONE && s.members[q] == []
  }

  ghost predicate Leads(s: State, run: seq<Action>, end: State)
    decreases |run|
  {
    if run == [] then s == end
    else Shaped(s) && Enabled(s, run[0]) && Leads(Next(s, run[0]), run[1..], end)
  }

  lemma {:induction false} RunKeepsInv(s: State, run: seq<Action>, end: State)
    requires Inv(s) && Leads(s, run, end)
    ensures Inv(end)
    decreases |run|
  {
    if run != [] {
      ActionKeepsInv(s, run[0]);
      RunKeepsInv(Next(s, run[0]), run[1..], end);
    }
  }

  /**
   * In every run both shortcuts are sound: the retired set is closed, and the
   * report is empty exactly when `e` is ready.
   */
  lemma ShortcutsAreSound(start: State, run: seq<Action>, s: State, e: nat)
    requires IsInitial(start) && Leads(start, run, s) && e < |s.specs|
    ensures Shaped(s) && IsClosed(s.specs, s.retired)
    ensures Unsatisfied(s, e) == {} <==> IsReady(s, e)
  {
    RunKeepsInv(start, run, s);
    forall d | 0 <= d < |s.specs| && s.counts[d] > 0 && Satisfied(s, d)
      ensures IsReady(s, d)
    {
      assert s.specs[d].max > 0;
    }
    NothingUnsatisfiedIff(s, e);
  }

  /** What precedes a direct prerequisite, or is it, precedes. */
  lemma PrecedesThrough(specs: seq<Spec>, p: nat, q: nat, e: nat)
    requires AreOrdered(specs) && e < |specs| && q in specs[e].prerequisites
    requires p == q || (q < |specs| && Precedes(specs, p, q))
    ensures Precedes(specs, p, e)
  {
    var i :| 0 <= i < |specs[e].prerequisites| && specs[e].prerequisites[i] == q;
    assert p == specs[e].prerequisites[i] || Precedes(specs, p, specs[e].prerequisites[i]);
  }

  lemma {:induction false} ChainPrecedes(specs: seq<Spec>, list: seq<nat>, k: nat, j: nat)
    requires AreOrdered(specs) && IsChain(specs, [], list) && k < j < |list| && list[|list| - 1] < |specs|
    ensures list[j] < |specs| && Precedes(specs, list[k], list[j])
    decreases j - k
  {
    MembersAreKnown(specs, list, j);
    assert list[j - 1] in specs[list[j]].prerequisites;
    if k < j - 1 {
      ChainPrecedes(specs, list, k, j - 1);
    }
    PrecedesThrough(specs, list[k], list[j - 1], list[j]);
  }

  lemma {:induction false} MembersAreKnown(specs: seq<Spec>, list: seq<nat>, j: nat)
    requires IsChain(specs, [], list) && j < |list| && list[|list| - 1] < |specs|
    ensures list[j] < |specs|
    decreases |list| - j
  {
    if j < |list| - 1 {
      MembersAreKnown(specs, list, j + 1);
      assert list[j + 1 - 1] < list[j + 1];
    }
  }

  lemma {:induction false} CountsOnlyGrow(s: State, run: seq<Action>, end: State, e: nat)
    requires Inv(s) && Leads(s, run, end) && e < |s.specs|
    ensures e < |end.specs| && |end.counts| == |end.specs| && end.specs[e] == s.specs[e] && end.counts[e] >= s.counts[e]
    decreases |run|
  {
    if run != [] {
      ActionKeepsInv(s, run[0]);
      CountsOnlyGrow(Next(s, run[0]), run[1..], end, e);
    }
  }

  lemma {:induction false} PrecedesOnlyGrows(s: State, run: seq<Action>, end: State, p: nat, e: nat)
    requires Inv(s) && Leads(s, run, end) && e < |s.specs| && Precedes(s.specs, p, e)
    ensures e < |end.specs| && AreOrdered(end.specs) && Precedes(end.specs, p, e)
    decreases |run|
  {
    if run != [] {
      ActionKeepsInv(s, run[0]);
      var t := Next(s, run[0]);
      if run[0].Expect? {
        assert t.specs == s.specs + [t.specs[|s.specs|]];
        PrecedesOfExtension(s.specs, t.specs[|s.specs|], p, e);
      }
      PrecedesOnlyGrows(t, run[1..], end, p, e);
    }
  }

  /**
   * A call is handled by an expectation only once its prerequisites are
   * satisfied; and from its first call on, if it may be called at all, no call
   * is handled by one of its prerequisites again. `OrderHoldsIff` says what
   * becomes of one that may not.
   */
  lemma OrderIsEnforced(start: State, run: seq<Action>, s: State, later: seq<Action>, end: State,
                        p: nat, e: nat, matching: set<nat>)
    requires IsInitial(start) && Leads(start, run, s) && Leads(s, later, end) && p < |s.specs| && e < |s.specs|
    requires AreOrdered(s.specs) && Precedes(s.specs, p, e)
    ensures Shaped(s) && Shaped(end)
    ensures Handler(s, matching) == e ==> s.specs[p].min <= s.counts[p] <= s.specs[p].max
    ensures s.counts[e] > 0 && s.specs[e].max > 0 ==> Handler(end, matching) != p
  {
    RunKeepsInv(start, run, s);
    RunKeepsInv(s, later, end);
    HandlerIsReady(s, matching, |s.specs|);
    CountsOnlyGrow(s, later, end, e);
    CountsOnlyGrow(s, later, end, p);
    PrecedesOnlyGrows(s, later, end, p, e);
    HandlerIsReady(end, matching, |end.specs|);
  }

  /** No call in any run from here on is handled by `p`. */
  ghost predicate NeverHandles(s: State, p: nat) {
    forall later, end, matching :: Leads(s, later, end) && Shaped(end) ==> Handler(end, matching) != p
  }

  lemma {:induction false} RetiredStays(s: State, run: seq<Action>, end: State, p: nat)
    requires Inv(s) && Leads(s, run, end) && p < |s.specs| && s.retired[p]
    ensures Inv(end) && p < |end.specs| && end.retired[p]
    decreases |run|
  {
    if run != [] {
      ActionKeepsInv(s, run[0]);
      RetiredStays(Next(s, run[0]), run[1..], end, p);
    }
  }

  lemma RetiredNeverHandles(s: State, p: nat)
    requires Inv(s) && p < |s.specs| && s.retired[p]
    ensures NeverHandles(s, p)
  {
    hide Inv;
    forall later, end, matching | Leads(s, later, end) && Shaped(end)
      ensures Handler(end, matching) != p
    {
      RetiredStays(s, later, end, p);
      HandlerIsReady(end, matching, |end.specs|);
    }
  }

  /** A prerequisite that is not retired is what handles the next call only it matches, if `e` was called in vain. */
  lemma ExcessiveCallReleases(s: State, e: nat, q: nat)
    requires Inv(s) && e < |s.specs| && IsReady(s, e) && s.specs[e].max <= 0
    requires q < |s.specs| && Precedes(s.specs, q, e) && !s.retired[q]
    ensures Shaped(Called(s, e)) && Handler(Called(s, e), {q}) == q
    ensures !NeverHandles(Called(s, e), q)
  {
    var t := Called(s, e);
    forall p: nat | p < |s.specs| && Precedes(s.specs, p, q)
      ensures Satisfied(t, p)
    {
      PrecedesIsTransitive(s.specs, p, q, e);
      PrecedesIsEarlier(s.specs, p, e);
    }
    assert IsReady(t, q);
    HandlerIsReady(t, {q}, |t.specs|);
    assert Leads(t, [], t);
  }

  ghost predicate PrerequisitesRetired(s: State, e: nat)
    requires Shaped(s) && e < |s.specs|
  {
    forall k :: 0 <= k < |s.specs[e].prerequisites| ==> s.retired[s.specs[e].prerequisites[k]]
  }

  lemma RetiredThrough(s: State, e: nat, p: nat)
    requires Inv(s) && e < |s.specs| && PrerequisitesRetired(s, e) && p < |s.specs| && Precedes(s.specs, p, e)
    ensures s.retired[p]
  {
    var ps := s.specs[e].prerequisites;
    var k :| 0 <= k < |ps| && (p == ps[k] || Precedes(s.specs, p, ps[k]));
    if p != ps[k] {
      ClosedRetiresAll(s.specs, s.retired, p, ps[k]);
    }
  }

  /**
   * A call handled by `e`, in any run, ends the use of all its prerequisites if
   * and only if `e` may be called at all or they are retired already.
   */
  lemma OrderHoldsIff(start: State, run: seq<Action>, s: State, e: nat, matching: set<nat>)
    requires IsInitial(start) && Leads(start, run, s)
    requires Shaped(s) && e < |s.specs| && Handler(s, matching) == e
    ensures (forall p: nat :: p < |s.specs| && Precedes(s.specs, p, e) ==> NeverHandles(Next(s, Call(matching)), p))
      <==> s.specs[e].max > 0 || PrerequisitesRetired(s, e)
  {
    RunKeepsInv(start, run, s);
    ActionKeepsInv(s, Call(matching));
    HandlerIsReady(s, matching, |s.specs|);
    var t := Next(s, Call(matching));
    if s.specs[e].max > 0 || PrerequisitesRetired(s, e) {
      forall p: nat | p < |s.specs| && Precedes(s.specs, p, e)
        ensures NeverHandles(t, p)
      {
        if PrerequisitesRetired(s, e) {
          RetiredThrough(s, e, p);
        }
        RetiredNeverHandles(t, p);
      }
    } else {
      var k :| 0 <= k < |s.specs[e].prerequisites| && !s.retired[s.specs[e].prerequisites[k]];
      var q := s.specs[e].prerequisites[k];
      assert Precedes(s.specs, q, e);
      ExcessiveCallReleases(s, e, q);
    }
  }

  ghost function NoneYet(): State {
    State([], [], [], [], [])
  }

  ghost function OnceAlone(): State {
    State([Spec(1, 1, [], false)], [0], [false], [], [])
  }

  /** `Times(1)`, and `Times(0)` after it, with some numbers of calls. */
  ghost function OnceThenNever(first: nat, second: nat): State {
    State([Spec(1, 1, [], false), Spec(0, 0, [0], false)], [first, second], [false, false], [], [])
  }

  lemma OnceThenNeverIsOrdered(first: nat, second: nat)
    ensures var s := OnceThenNever(first, second);
            && Inv(s) && Shaped(s)
            && (forall p, e: nat :: e < 2 ==> (Precedes(s.specs, p, e) <==> p == 0 && e == 1))
            && IsReady(s, 0) && (IsReady(s, 1) <==> first == 1)
  {
    var s := OnceThenNever(first, second);
    assert s.specs[1].prerequisites[0] == 0;
    assert forall p: nat :: !Precedes(s.specs, p, 0);
    assert forall p: nat :: Precedes(s.specs, p, 1) <==> p == 0;
    assert IsReady(s, 1) <==> Satisfied(s, 0);
  }

  /** Making an expectation in no sequence. */
  lemma OutsideSequences(s: State, min: int, max: int, retiresOnSaturation: bool, after: seq<nat>)
    requires Shaped(s) && forall k :: 0 <= k < |after| ==> after[k] < |s.specs|
    ensures Next(s, Expect(min, max, retiresOnSaturation, [], after)) ==
      State(s.specs + [Spec(min, max, after, retiresOnSaturation)], s.counts + [0], s.retired + [false],
            s.last, s.members)
  {
    assert [] + after == after;
  }

  lemma MakingFirst()
    ensures IsInitial(NoneYet()) && Shaped(NoneYet())
    ensures Next(NoneYet(), Expect(1, 1, false, [], [])) == OnceAlone()
  {
    hide Next;
    OutsideSequences(NoneYet(), 1, 1, false, []);
  }

  lemma MakingSecond()
    ensures Shaped(OnceAlone()) && Enabled(OnceAlone(), Expect(0, 0, false, [], [0]))
    ensures Next(OnceAlone(), Expect(0, 0, false, [], [0])) == OnceThenNever(0, 0)
  {
    hide Next;
    OutsideSequences(OnceAlone(), 0, 0, false, [0]);
  }

  lemma CallingFirst()
    ensures Shaped(OnceThenNever(0, 0)) && Next(OnceThenNever(0, 0), Call({0})) == OnceThenNever(1, 0)
  {
    var s := OnceThenNever(0, 0);
    OnceThenNeverIsOrdered(0, 0);
    hide IsReady, Precedes;
    HandlerIsReady(s, {0}, 2);
    assert Handler(s, {0}) == 0;
    assert RetiredBefore(s.specs, s.retired, 0, 2) == s.retired;
  }

  lemma CallingSecond()
    ensures Shaped(OnceThenNever(1, 0)) && Next(OnceThenNever(1, 0), Call({1})) == OnceThenNever(1, 1)
    ensures Called(OnceThenNever(1, 0), 1) == OnceThenNever(1, 1)
  {
    OnceThenNeverIsOrdered(1, 0);
    hide IsReady, Precedes;
    HandlerIsReady(OnceThenNever(1, 0), {1}, 2);
    assert Handler(OnceThenNever(1, 0), {1}) == 1;
  }

  /** Called once each, in order: the second call is excessive, and the first expectation still handles calls. */
  lemma TimesZeroReleasesNothing()
    ensures var run := [Expect(1, 1, false, [], []), Expect(0, 0, false, [], [0]), Call({0}), Call({1})];
            IsInitial(NoneYet()) && Leads(NoneYet(), run, OnceThenNever(1, 1))
    ensures var s := OnceThenNever(1, 1);
            && Shaped(s) && Precedes(s.specs, 0, 1) && s.counts[1] > 0
            && Handler(s, {0}) == 0 && !NeverHandles(s, 0)
  {
    hide Precedes, IsReady, Handler, NeverHandles, Next, Called, Leads, Inv, NoneYet, OnceAlone, IsInitial;
    MakingFirst();
    MakingSecond();
    CallingFirst();
    CallingSecond();
    OnceThenNeverIsOrdered(1, 0);
    OnceThenNeverIsOrdered(1, 1);
    ExcessiveCallReleases(OnceThenNever(1, 0), 1, 0);
    LeadsInFour(NoneYet(), OnceAlone(), OnceThenNever(0, 0), OnceThenNever(1, 0), OnceThenNever(1, 1),
                Expect(1, 1, false, [], []), Expect(0, 0, false, [], [0]), Call({0}), Call({1}));
  }

  lemma LeadsInFour(s0: State, s1: State, s2: State, s3: State, s4: State,
                    a0: Action, a1: Action, a2: Action, a3: Action)
    requires Shaped(s0) && Enabled(s0, a0) && Next(s0, a0) == s1
    requires Shaped(s1) && Enabled(s1, a1) && Next(s1, a1) == s2
    requires Shaped(s2) && Enabled(s2, a2) && Next(s2, a2) == s3
    requires Shaped(s3) && Enabled(s3, a3) && Next(s3, a3) == s4
    ensures Leads(s0, [a0, a1, a2, a3], s4)
  {
    hide Shaped, Enabled, Next;
    assert Leads(s4, [], s4);
    assert Leads(s3, [a3], s4) by { assert [a3][1..] == []; }
    assert Leads(s2, [a2, a3], s4) by { assert [a2, a3][1..] == [a3]; }
    assert Leads(s1, [a1, a2, a3], s4) by { assert [a1, a2, a3][1..] == [a2, a3]; }
    assert [a0, a1, a2, a3][1..] == [a1, a2, a3];
  }

  /** An earlier member of a sequence is a prerequisite of every later one. */
  lemma SequencesArePrerequisites(start: State, run: seq<Action>, s: State, q: nat, k: nat, j: nat)
    requires IsInitial(start) && Leads(start, run, s) && q < |s.members| && k < j < |s.members[q]|
    ensures Shaped(s) && s.members[q][j] < |s.specs| && Precedes(s.specs, s.members[q][k], s.members[q][j])
  {
    RunKeepsInv(start, run, s);
    assert IsChain(s.specs, [], s.members[q]) && s.last[q] == LastOf(s.members[q]);
    ChainPrecedes(s.specs, s.members[q], k, j);
  }
}

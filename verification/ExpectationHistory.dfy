/**
 * What the expectations of a mock object hold after a run, read off the run's
 * own actions: the prerequisites of each, its number of calls, and which are retired.
 */
module ExpectationHistory {
  import opened Expectations

  // ---------- Expectations made ----------

  /** The expectations a run makes, in order. */
  ghost function Made(run: seq<Action>): (made: seq<Action>)
    ensures forall k :: 0 <= k < |made| ==> made[k].Expect?
  {
    if run == [] then [] else (if run[0].Expect? then [run[0]] else []) + Made(run[1..])
  }

  /** The latest of the first `n` that was made in sequence `q`. */
  ghost function Latest(made: seq<Action>, n: nat, q: nat): int
    requires n <= |made| && forall k :: 0 <= k < |made| ==> made[k].Expect?
  {
    if n == 0 then NONE else if q in made[n - 1].inSequences then n - 1 else Latest(made, n - 1, q)
  }

  /**
   * An expectation is as it was asked for; it follows the latest of each of its
   * sequences, and no others but `after`.
   */
  ghost predicate IsAsMade(made: seq<Action>, i: nat, spec: Spec)
    requires i < |made| && forall k :: 0 <= k < |made| ==> made[k].Expect?
  {
    && spec.min == made[i].min && spec.max == made[i].max && spec.retiresOnSaturation == made[i].retiresOnSaturation
    && forall p: nat :: p in spec.prerequisites <==>
         p in made[i].after || exists q :: q in made[i].inSequences && Latest(made, i, q) == p
  }

  ghost predicate IsRecord(made: seq<Action>, s: State) {
    && (forall k :: 0 <= k < |made| ==> made[k].Expect?)
    && |made| == |s.specs| && |s.members| == |s.last|
    && (forall i :: 0 <= i < |made| ==> IsAsMade(made, i, s.specs[i]))
    && (forall q :: 0 <= q < |s.last| ==> s.last[q] == Latest(made, |made|, q))
  }

  lemma {:induction false} LatestIsEarlier(made: seq<Action>, n: nat, q: nat)
    requires n <= |made| && forall k :: 0 <= k < |made| ==> made[k].Expect?
    ensures NONE <= Latest(made, n, q) < n
    ensures forall k :: 0 <= k < n && q in made[k].inSequences ==> k <= Latest(made, n, q)
    ensures Latest(made, n, q) >= 0 ==> q in made[Latest(made, n, q)].inSequences
  {
    if n > 0 {
      LatestIsEarlier(made, n - 1, q);
    }
  }

  lemma {:induction false} LatestOfMore(made: seq<Action>, a: Action, n: nat, q: nat)
    requires n <= |made| && a.Expect? && forall k :: 0 <= k < |made| ==> made[k].Expect?
    ensures Latest(made + [a], n, q) == Latest(made, n, q)
  {
    if n > 0 {
      LatestOfMore(made, a, n - 1, q);
    }
  }

  /** What enrolling in some sequences does to their last expectations, and which prerequisites it adds. */
  lemma {:induction false} EnrolledIs(last: seq<int>, members: seq<seq<nat>>, prerequisites: seq<nat>, id: nat,
                                      inSequences: seq<nat>)
    requires |members| == |last| && forall k :: 0 <= k < |inSequences| ==> inSequences[k] < |last|
    ensures var (last', members', prerequisites') := Enrolled(last, members, prerequisites, id, inSequences);
            && |last'| == |last| == |members'|
            && (forall q :: 0 <= q < |last| ==> last'[q] == if q in inSequences then id else last[q])
            && forall p: nat :: p in prerequisites' <==>
                 p in prerequisites || exists q: nat :: q in inSequences && q < |last| && last[q] != id && last[q] == p
    decreases |inSequences|
  {
    if inSequences != [] {
      var q, rest := inSequences[0], inSequences[1..];
      assert forall r :: r in inSequences <==> r == q || r in rest;
      if last[q] == id {
        EnrolledIs(last, members, prerequisites, id, rest);
      } else {
        var more := if last[q] >= 0 then prerequisites + [last[q]] else prerequisites;
        EnrolledIs(last[q := id], members[q := members[q] + [id]], more, id, rest);
      }
    }
  }

  lemma ExpectKeepsRecord(made: seq<Action>, s: State, a: Action)
    requires IsRecord(made, s) && Shaped(s) && Enabled(s, a) && a.Expect?
    ensures IsRecord(made + [a], Next(s, a))
  {
    var n, more, t := |made|, made + [a], Next(s, a);
    EnrolledIs(s.last, s.members, [], n, a.inSequences);
    forall i | 0 <= i < |more|
      ensures IsAsMade(more, i, t.specs[i])
    {
      forall q: nat
        ensures Latest(more, i, q) == Latest(made, i, q)
      {
        LatestOfMore(made, a, i, q);
      }
      if i < n {
        assert IsAsMade(made, i, s.specs[i]) && more[i] == made[i];
      } else {
        NewIsAsMade(made, s, a);
      }
    }
    forall q | 0 <= q < |t.last|
      ensures t.last[q] == Latest(more, |more|, q)
    {
      LatestOfMore(made, a, n, q);
    }
  }

  lemma NewIsAsMade(made: seq<Action>, s: State, a: Action)
    requires IsRecord(made, s) && Shaped(s) && Enabled(s, a) && a.Expect?
    ensures IsAsMade(made + [a], |made|, Next(s, a).specs[|made|])
  {
    var n, more, spec := |made|, made + [a], Next(s, a).specs[|made|];
    EnrolledIs(s.last, s.members, [], n, a.inSequences);
    forall p: nat
      ensures p in spec.prerequisites <==> p in a.after || exists q :: q in a.inSequences && Latest(more, n, q) == p
    {
      forall q: nat
        ensures Latest(more, n, q) == Latest(made, n, q) < n
      {
        LatestOfMore(made, a, n, q);
        LatestIsEarlier(made, n, q);
      }
      if q: nat :| q in a.inSequences && q < |s.last| && s.last[q] != n && s.last[q] == p {
        assert q in a.inSequences && Latest(more, n, q) == p;
      }
      if q :| q in a.inSequences && Latest(more, n, q) == p {
        assert q in a.inSequences && q < |s.last| && s.last[q] != n && s.last[q] == p;
      }
    }
  }

  lemma CallKeepsRecord(made: seq<Action>, s: State, matching: set<nat>)
    requires IsRecord(made, s) && Shaped(s)
    ensures IsRecord(made, Next(s, Call(matching)))
  {
    hide IsAsMade, Latest, Handler;
  }

  lemma {:induction false} RunKeepsRecord(made: seq<Action>, s: State, run: seq<Action>, end: State)
    requires IsRecord(made, s) && Leads(s, run, end)
    ensures IsRecord(made + Made(run), end)
    decreases |run|
  {
    hide IsRecord, Next, Enabled, Shaped, Handler;
    if run == [] {
      assert made + Made(run) == made;
    } else if run[0].Expect? {
      ExpectKeepsRecord(made, s, run[0]);
      RunKeepsRecord(made + [run[0]], Next(s, run[0]), run[1..], end);
      assert made + [run[0]] + Made(run[1..]) == made + Made(run);
    } else {
      CallKeepsRecord(made, s, run[0].matching);
      RunKeepsRecord(made, Next(s, run[0]), run[1..], end);
      assert Made(run) == Made(run[1..]);
    }
  }

  /**
   * After any run the expectations are those it made: each has the bounds it was
   * given, and its prerequisites are exactly those it named and the latest
   * earlier one of each sequence it was made in.
   */
  lemma ExpectationsAreAsMade(start: State, run: seq<Action>, s: State)
    requires IsInitial(start) && Leads(start, run, s)
    ensures Shaped(s) && |s.specs| == |Made(run)|
    ensures forall i :: 0 <= i < |s.specs| ==> IsAsMade(Made(run), i, s.specs[i])
  {
    Expectations.RunKeepsInv(start, run, s);
    RunKeepsRecord([], start, run, s);
    assert [] + Made(run) == Made(run);
  }

  lemma {:induction false} SequencePrecedes(made: seq<Action>, specs: seq<Spec>, i: nat, j: nat, q: nat)
    requires AreOrdered(specs) && |made| == |specs| && i < j < |made|
    requires forall k :: 0 <= k < |made| ==> made[k].Expect?
    requires forall k :: 0 <= k < |made| ==> IsAsMade(made, k, specs[k])
    requires q in made[i].inSequences && q in made[j].inSequences
    ensures Precedes(specs, i, j)
    decreases j
  {
    var m := Latest(made, j, q);
    LatestIsEarlier(made, j, q);
    assert IsAsMade(made, j, specs[j]) && m in specs[j].prerequisites;
    if i < m {
      SequencePrecedes(made, specs, i, m, q);
    }
    PrecedesThrough(specs, i, m, j);
  }

  /** Of two expectations made in one sequence the earlier is a prerequisite of the later. */
  lemma SequencesKeepOrder(start: State, run: seq<Action>, s: State, i: nat, j: nat, q: nat)
    requires IsInitial(start) && Leads(start, run, s) && i < j < |Made(run)|
    requires q in Made(run)[i].inSequences && q in Made(run)[j].inSequences
    ensures Shaped(s) && j < |s.specs| && Precedes(s.specs, i, j)
  {
    ExpectationsAreAsMade(start, run, s);
    SequencePrecedes(Made(run), s.specs, i, j, q);
  }

  // ---------- Who handles a call ----------

  /** Whether `e` is there to handle a call that `matching` match, its prerequisites called within their bounds. */
  ghost predicate MayHandle(s: State, matching: set<nat>, e: nat)
    requires Shaped(s)
  {
    && e < |s.specs| && e in matching && !s.retired[e]
    && forall p: nat :: p < |s.specs| && Precedes(s.specs, p, e) ==> s.specs[p].min <= s.counts[p] <= s.specs[p].max
  }

  /** The newest that may handle a call does, and no call is left alone that one may handle. */
  lemma HandlerIsNewest(s: State, matching: set<nat>)
    requires Shaped(s)
    ensures forall e: nat :: Handler(s, matching) == e <==>
              MayHandle(s, matching, e) && forall d: nat :: d > e ==> !MayHandle(s, matching, d)
    ensures Handler(s, matching) < 0 <==> forall e: nat :: !MayHandle(s, matching, e)
  {
    HandlerIsReady(s, matching, |s.specs|);
    forall e: nat
      ensures MayHandle(s, matching, e) <==>
        e < |s.specs| && e in matching && !s.retired[e] && IsReady(s, e)
    {
    }
    hide MayHandle, IsReady;
  }

  // ---------- Calls counted ----------

  /** How many calls of a run `e` handles. */
  ghost function Handled(s: State, run: seq<Action>, e: nat): nat
    decreases |run|
  {
    if run == [] || !Shaped(s) || !Enabled(s, run[0]) then 0
    else
      (if run[0].Call? && Handler(s, run[0].matching) == e then 1 else 0) + Handled(Next(s, run[0]), run[1..], e)
  }

  /**
   * What one call changes. The handler counts one more; if it was still below
   * its bound its prerequisites, direct and indirect, retire, and so does it if
   * it was told to and has now reached the bound. A call nobody handles changes nothing.
   */
  lemma CallChanges(s: State, matching: set<nat>)
    requires Shaped(s)
    ensures var e, t := Handler(s, matching), Next(s, Call(matching));
            && t.specs == s.specs && t.last == s.last && t.members == s.members
            && |t.counts| == |t.retired| == |s.specs|
            && forall d: nat :: d < |s.specs| ==>
                 && t.counts[d] == s.counts[d] + (if d == e then 1 else 0)
                 && (t.retired[d] <==>
                       s.retired[d] || (0 <= e < |s.specs| && s.counts[e] < s.specs[e].max
                         && (Precedes(s.specs, d, e)
                             || (d == e && s.specs[e].retiresOnSaturation && s.counts[e] + 1 >= s.specs[e].max))))
  {
    HandlerIsReady(s, matching, |s.specs|);
    hide Precedes, IsReady;
  }

  lemma {:induction false} CountsAreCalls(s: State, run: seq<Action>, end: State, e: nat)
    requires Inv(s) && Leads(s, run, end) && e < |end.specs|
    ensures |end.counts| == |end.specs| && |s.counts| == |s.specs|
    ensures end.counts[e] == (if e < |s.specs| then s.counts[e] else 0) + Handled(s, run, e)
    decreases |run|
  {
    if run != [] {
      ActionKeepsInv(s, run[0]);
      CountsAreCalls(Next(s, run[0]), run[1..], end, e);
      HandlerIsReady(s, if run[0].Call? then run[0].matching else {}, |s.specs|);
      hide IsReady, Precedes;
      if run[0].Call? {
        CallChanges(s, run[0].matching);
      }
    }
  }

  // ---------- Who is retired ----------

  /** Told to retire on saturation, and called as often as it may be. */
  ghost predicate IsUsedUp(s: State, e: nat)
    requires Shaped(s) && e < |s.specs|
  {
    s.specs[e].retiresOnSaturation && 0 < s.specs[e].max <= s.counts[e]
  }

  /** Something that may be called, and was, comes after `e`. */
  ghost predicate IsPassed(s: State, e: nat)
    requires Shaped(s)
  {
    exists d: nat :: d < |s.specs| && s.counts[d] > 0 && s.specs[d].max > 0 && Precedes(s.specs, e, d)
  }

  ghost predicate RetiredExactly(s: State)
    requires Shaped(s)
  {
    forall e: nat :: e < |s.specs| ==> (s.retired[e] <==> IsUsedUp(s, e) || IsPassed(s, e))
  }

  lemma CallKeepsRetired(s: State, matching: set<nat>)
    requires Inv(s) && RetiredExactly(s)
    ensures Shaped(Next(s, Call(matching))) && RetiredExactly(Next(s, Call(matching)))
  {
    var e, t := Handler(s, matching), Next(s, Call(matching));
    ActionKeepsInv(s, Call(matching));
    CallChanges(s, matching);
    HandlerIsReady(s, matching, |s.specs|);
    hide Inv, Next, Handler, IsReady, Precedes;
    forall d: nat | d < |s.specs|
      ensures t.retired[d] <==> IsUsedUp(t, d) || IsPassed(t, d)
    {
      CallPasses(s, t, e, d);
    }
  }

  /** Being passed changes only for what precedes the handler, and only at its first call that counts. */
  lemma CallPasses(s: State, t: State, e: int, d: nat)
    requires Shaped(s) && Shaped(t) && t.specs == s.specs && d < |s.specs| && -1 <= e < |s.specs|
    requires forall c: nat :: c < |s.specs| ==> t.counts[c] == s.counts[c] + (if c == e then 1 else 0)
    ensures IsPassed(t, d) <==> IsPassed(s, d) || (e >= 0 && s.specs[e].max > 0 && Precedes(s.specs, d, e))
  {
    hide Precedes;
    if IsPassed(s, d) {
      var c: nat :| c < |s.specs| && s.counts[c] > 0 && s.specs[c].max > 0 && Precedes(s.specs, d, c);
      assert t.counts[c] > 0;
    }
    if e >= 0 && s.specs[e].max > 0 && Precedes(s.specs, d, e) {
      assert t.counts[e] > 0;
    }
  }

  lemma ExpectKeepsRetired(s: State, a: Action)
    requires Inv(s) && RetiredExactly(s) && Enabled(s, a) && a.Expect?
    ensures Shaped(Next(s, a)) && RetiredExactly(Next(s, a))
  {
    var n, t := |s.specs|, Next(s, a);
    ActionKeepsInv(s, a);
    assert t.specs == s.specs + [t.specs[n]] && t.counts == s.counts + [0] && t.retired == s.retired + [false];
    hide Inv, Next;
    forall e: nat | e < |t.specs|
      ensures t.retired[e] <==> IsUsedUp(t, e) || IsPassed(t, e)
    {
      if e < n {
        assert IsUsedUp(t, e) <==> IsUsedUp(s, e);
      }
      PassedInExtension(s, t, e);
    }
  }

  lemma PassedInExtension(s: State, t: State, e: nat)
    requires Shaped(s) && Shaped(t) && |t.specs| == |s.specs| + 1 && t.specs == s.specs + [t.specs[|s.specs|]]
    requires t.counts == s.counts + [0]
    ensures IsPassed(t, e) <==> IsPassed(s, e)
    ensures e == |s.specs| ==> !IsPassed(t, e)
  {
    var spec := t.specs[|s.specs|];
    if IsPassed(s, e) {
      var d: nat :| d < |s.specs| && s.counts[d] > 0 && s.specs[d].max > 0 && Precedes(s.specs, e, d);
      PrecedesOfExtension(s.specs, spec, e, d);
      assert t.counts[d] > 0 && Precedes(t.specs, e, d);
    }
    if IsPassed(t, e) {
      var d: nat :| d < |t.specs| && t.counts[d] > 0 && t.specs[d].max > 0 && Precedes(t.specs, e, d);
      PrecedesOfExtension(s.specs, spec, e, d);
      PrecedesIsEarlier(s.specs, e, d);
      assert s.counts[d] > 0;
    }
  }

  lemma {:induction false} RunKeepsRetired(s: State, run: seq<Action>, end: State)
    requires Inv(s) && RetiredExactly(s) && Leads(s, run, end)
    ensures Inv(end) && RetiredExactly(end)
    decreases |run|
  {
    if run != [] {
      ActionKeepsInv(s, run[0]);
      if run[0].Call? {
        CallKeepsRetired(s, run[0].matching);
      } else {
        ExpectKeepsRetired(s, run[0]);
      }
      hide RetiredExactly;
      RunKeepsRetired(Next(s, run[0]), run[1..], end);
    }
  }

  /**
   * In every run, exactly those are retired that were told to retire on
   * saturation and were called as often as they may be, and those that precede
   * one that may be called and was.
   */
  lemma RetiredIff(start: State, run: seq<Action>, s: State, e: nat)
    requires IsInitial(start) && Leads(start, run, s) && e < |s.specs|
    ensures Shaped(s) && (s.retired[e] <==> IsUsedUp(s, e) || IsPassed(s, e))
  {
    RunKeepsRetired(start, run, s);
  }

  /** What is used up handles no call of any later run. */
  lemma UsedUpNeverHandles(start: State, run: seq<Action>, s: State, e: nat)
    requires IsInitial(start) && Leads(start, run, s) && Shaped(s) && e < |s.specs| && IsUsedUp(s, e)
    ensures s.retired[e] && NeverHandles(s, e)
  {
    RetiredIff(start, run, s, e);
    Expectations.RunKeepsInv(start, run, s);
    RetiredNeverHandles(s, e);
  }
}

/** Broadcasting one message to a group, one member at a time or with a thread for each. */
module Broadcast {
  import opened Common

  datatype Status = Succeeded | Failed | TimedOut

  /** A member's result; `detail` stands for everything else in its view. */
  datatype MemberView = MemberView(agent: string, status: Status, detail: string)

  /** What the clock, the planning and the send would give one member, whenever it is tried; `stored` is false
      when the result or its event cannot be written, or the sending thread panics, which aborts the run. */
  datatype Outcome =
    | LateStart(view: MemberView, stored: bool)
    | PlanError(view: MemberView, stored: bool)
    | Sent(view: MemberView, stored: bool)

  predicate OutcomeOk(o: Outcome) {
    match o
    case LateStart(view, _) => view.status == TimedOut
    case PlanError(view, _) => view.status == Failed
    case Sent(_, _) => true
  }

  datatype Policy = Stop | KeepGoing

  function Views(outcomes: seq<Outcome>): (r: seq<MemberView>)
    ensures |r| == |outcomes| && forall i :: 0 <= i < |r| ==> r[i] == outcomes[i].view
  {
    seq(|outcomes|, i requires 0 <= i < |outcomes| => outcomes[i].view)
  }

  /** How many members a sequential run tries: through the first non-success under stop. */
  function Reached(views: seq<MemberView>, policy: Policy): (n: nat)
    ensures n <= |views|
    ensures policy.KeepGoing? ==> n == |views|
    ensures forall i :: 0 <= i < n - 1 && policy.Stop? ==> views[i].status == Succeeded
    ensures n < |views| ==> n > 0 && views[n - 1].status != Succeeded
  {
    if views == [] then 0
    else if policy.Stop? && views[0].status != Succeeded then 1
    else 1 + Reached(views[1..], policy)
  }

  lemma {:induction false} ReachedIsFirstFailure(views: seq<MemberView>, n: nat)
    requires n < |views| && views[n].status != Succeeded
    requires forall i :: 0 <= i < n ==> views[i].status == Succeeded
    ensures Reached(views, Stop) == n + 1
  {
    if n > 0 { ReachedIsFirstFailure(views[1..], n - 1); }
  }

  lemma {:induction false} ReachedAll(views: seq<MemberView>)
    requires forall i :: 0 <= i < |views| ==> views[i].status == Succeeded
    ensures Reached(views, Stop) == |views|
  {
    if views != [] { ReachedAll(views[1..]); }
  }

  /** How many members come before the first whose result cannot be stored. */
  function StoredThrough(outcomes: seq<Outcome>): (n: nat)
    ensures n <= |outcomes| && (n < |outcomes| ==> !outcomes[n].stored)
    ensures forall i :: 0 <= i < n ==> outcomes[i].stored
  {
    if outcomes == [] || !outcomes[0].stored then 0 else StoredThrough(outcomes[1..]) + 1
  }

  /** One member after the other; `None` when the run is aborted. */
  method RunSequential(outcomes: seq<Outcome>, policy: Policy) returns (results: Option<seq<MemberView>>, events: seq<MemberView>)
    requires forall i :: 0 <= i < |outcomes| ==> OutcomeOk(outcomes[i])
    ensures results.Some? <==> Reached(Views(outcomes), policy) <= StoredThrough(outcomes)
    ensures results.Some? ==> results.value == Views(outcomes)[..Reached(Views(outcomes), policy)] == events
    ensures results.None? ==> events == Views(outcomes)[..StoredThrough(outcomes)]
  {
    ghost var views := Views(outcomes);
    var done: seq<MemberView> := [];
    events := [];
    var index := 0;
    while index < |outcomes|
      invariant index <= |outcomes| && done == views[..index] && events == done
      invariant index <= StoredThrough(outcomes)
      invariant policy.Stop? ==> forall i :: 0 <= i < index ==> views[i].status == Succeeded
    {
      var outcome := outcomes[index];
      if !outcome.stored {
        AbortedHere(outcomes, policy, index);
        return None, events;
      }
      assert views[..index + 1] == views[..index] + [outcome.view];
      events := events + [outcome.view];
      done := done + [outcome.view];
      if (outcome.LateStart? || outcome.PlanError? || outcome.view.status != Succeeded) && policy.Stop? {
        ReachedIsFirstFailure(views, index);
        return Some(done), events;
      }
      index := index + 1;
    }
    if policy.Stop? { ReachedAll(views); }
    return Some(done), events;
  }

  lemma AbortedHere(outcomes: seq<Outcome>, policy: Policy, index: nat)
    requires index < |outcomes| && !outcomes[index].stored && index <= StoredThrough(outcomes)
    requires policy.Stop? ==> forall i :: 0 <= i < index ==> Views(outcomes)[i].status == Succeeded
    ensures StoredThrough(outcomes) == index < Reached(Views(outcomes), policy)
  {
    if policy.Stop? { ReachedBeyond(Views(outcomes), index); }
  }

  lemma {:induction false} ReachedBeyond(views: seq<MemberView>, n: nat)
    requires n < |views| && forall i :: 0 <= i < n ==> views[i].status == Succeeded
    ensures Reached(views, Stop) > n
  {
    if n > 0 { ReachedBeyond(views[1..], n - 1); }
  }

  // ----- Concurrent -----

  /** A result with the member's position in the group. */
  datatype Indexed = Indexed(index: nat, view: MemberView)

  predicate SortedByIndex(rs: seq<Indexed>) {
    forall i, j :: 0 <= i < j < |rs| ==> rs[i].index < rs[j].index
  }

  predicate DistinctIndices(rs: seq<Indexed>) {
    forall i, j :: 0 <= i < j < |rs| ==> rs[i].index != rs[j].index
  }

  function Insert(r: Indexed, rs: seq<Indexed>): (s: seq<Indexed>)
    ensures |s| == |rs| + 1
  {
    if rs == [] then [r]
    else if r.index < rs[|rs| - 1].index then Insert(r, rs[..|rs| - 1]) + [rs[|rs| - 1]]
    else rs + [r]
  }

  /** Stable sort by index. */
  function SortByIndex(rs: seq<Indexed>): (s: seq<Indexed>)
    ensures |s| == |rs|
  {
    if rs == [] then [] else Insert(rs[|rs| - 1], SortByIndex(rs[..|rs| - 1]))
  }

  lemma {:induction false} InsertKeeps(r: Indexed, rs: seq<Indexed>)
    requires SortedByIndex(rs) && forall q :: q in rs ==> q.index != r.index
    ensures SortedByIndex(Insert(r, rs))
    ensures forall q :: q in Insert(r, rs) <==> q == r || q in rs
  {
    if rs != [] {
      SplitLast(rs);
      var init, last := rs[..|rs| - 1], rs[|rs| - 1];
      if r.index < last.index {
        InsertKeeps(r, init);
        forall i | 0 <= i < |Insert(r, init)| ensures Insert(r, init)[i].index < last.index {
          assert Insert(r, init)[i] in Insert(r, init);
        }
      } else {
        assert last in rs;
      }
    }
  }

  lemma {:induction false} SortSorts(rs: seq<Indexed>)
    requires DistinctIndices(rs)
    ensures SortedByIndex(SortByIndex(rs)) && forall q :: q in SortByIndex(rs) <==> q in rs
  {
    if rs != [] {
      SplitLast(rs);
      SortSorts(rs[..|rs| - 1]);
      InsertKeeps(rs[|rs| - 1], SortByIndex(rs[..|rs| - 1]));
    }
  }

  /** Every member's result at its own position. */
  function Numbered(views: seq<MemberView>): (r: seq<Indexed>)
    ensures |r| == |views| && forall i :: 0 <= i < |r| ==> r[i] == Indexed(i, views[i])
  {
    seq(|views|, i requires 0 <= i < |views| => Indexed(i, views[i]))
  }

  lemma InitMembers(rs: seq<Indexed>)
    requires SortedByIndex(rs) && rs != []
    ensures forall x :: x in rs[..|rs| - 1] <==> x in rs && x != rs[|rs| - 1]
    ensures forall x :: x in rs ==> x.index <= rs[|rs| - 1].index
  {
    SplitLast(rs);
  }

  /** Two sorted lists with the same entries are the same list. */
  lemma {:induction false} SortedListsAgree(rs: seq<Indexed>, qs: seq<Indexed>)
    requires SortedByIndex(rs) && SortedByIndex(qs) && |rs| == |qs|
    requires forall r :: r in rs <==> r in qs
    ensures rs == qs
  {
    if rs != [] {
      var restR, restQ := rs[..|rs| - 1], qs[..|qs| - 1];
      var r, q := rs[|rs| - 1], qs[|qs| - 1];
      InitMembers(rs);
      InitMembers(qs);
      assert r == q by {
        assert r in qs && q in rs;
        assert r.index == q.index;
        var i :| 0 <= i < |qs| && qs[i] == r;
        assert i == |qs| - 1;
      }
      forall x ensures x in restR <==> x in restQ { assert x in rs <==> x in qs; }
      SortedListsAgree(restR, restQ);
      SplitLast(rs);
      SplitLast(qs);
    }
  }

  function Select(outcomes: seq<Outcome>, early: bool): seq<Indexed> {
    if outcomes == [] then []
    else
      var last := outcomes[|outcomes| - 1];
      Select(outcomes[..|outcomes| - 1], early)
      + if last.Sent? != early then [Indexed(|outcomes| - 1, last.view)] else []
  }

  /** Early and planned results together are every member's result, each at its own position. */
  lemma SelectCoversAll(outcomes: seq<Outcome>)
    ensures forall q :: q in Select(outcomes, true) + Select(outcomes, false) <==> q in Numbered(Views(outcomes))
    ensures DistinctIndices(Select(outcomes, true) + Select(outcomes, false))
    ensures |Select(outcomes, true)| + |Select(outcomes, false)| == |outcomes|
  {
    SelectedAll(outcomes);
    SelectMeaning(outcomes, true);
    SelectMeaning(outcomes, false);
    var all, numbered := Select(outcomes, true) + Select(outcomes, false), Numbered(Views(outcomes));
    forall q ensures q in all <==> q in numbered {
      if q in numbered {
        var k :| 0 <= k < |numbered| && numbered[k] == q;
        assert outcomes[k].Sent? != outcomes[k].Sent? || q in Select(outcomes, !outcomes[k].Sent?);
      }
      if q in all {
        assert numbered[q.index] == q;
      }
    }
  }

  lemma {:induction false} SelectedAll(outcomes: seq<Outcome>)
    ensures |Select(outcomes, true)| + |Select(outcomes, false)| == |outcomes|
  {
    if outcomes != [] { SelectedAll(outcomes[..|outcomes| - 1]); }
  }

  /** The selected results: one for each outcome of the kind, at its position, in order. */
  lemma {:induction false} SelectMeaning(outcomes: seq<Outcome>, early: bool)
    ensures forall q :: q in Select(outcomes, early) <==>
              q.index < |outcomes| && outcomes[q.index].Sent? != early && q.view == outcomes[q.index].view
    ensures SortedByIndex(Select(outcomes, early))
  {
    if outcomes != [] {
      var init, last := outcomes[..|outcomes| - 1], outcomes[|outcomes| - 1];
      SelectMeaning(init, early);
      forall i | 0 <= i < |Select(init, early)| ensures Select(init, early)[i].index < |init| {
        assert Select(init, early)[i] in Select(init, early);
      }
    }
  }

  function ViewsOf(rs: seq<Indexed>): (r: seq<MemberView>)
    ensures |r| == |rs| && forall i :: 0 <= i < |r| ==> r[i] == rs[i].view
  {
    seq(|rs|, i requires 0 <= i < |rs| => rs[i].view)
  }

  /** The order in which a concurrent run writes its members' results. */
  function JournalOrder(outcomes: seq<Outcome>): (r: seq<Indexed>)
    ensures |r| == |outcomes|
  {
    SelectedAll(outcomes);
    Select(outcomes, true) + Select(outcomes, false)
  }

  ghost predicate StoredAt(outcomes: seq<Outcome>, written: seq<Indexed>) {
    forall q :: q in written ==> q.index < |outcomes| && outcomes[q.index].stored
  }

  /** The run was aborted after these results: the next one could not be stored, the earlier ones were. */
  ghost predicate AbortedAt(outcomes: seq<Outcome>, written: seq<Indexed>) {
    && StoredAt(outcomes, written)
    && exists next: Indexed ::
         next.index < |outcomes| && !outcomes[next.index].stored && written + [next] <= JournalOrder(outcomes)
  }

  /** Late starts and planning errors are settled while planning; the rest run in threads that are
      joined in planning order. `None` when the run is aborted. */
  method RunConcurrent(outcomes: seq<Outcome>) returns (results: Option<seq<MemberView>>, events: seq<MemberView>)
    ensures results.Some? <==> StoredThrough(outcomes) == |outcomes|
    ensures results.Some? ==> results.value == Views(outcomes) && events == ViewsOf(JournalOrder(outcomes))
    ensures results.None? ==> exists written :: AbortedAt(outcomes, written) && events == ViewsOf(written)
  {
    var planned: seq<Indexed> := [];
    var early: seq<Indexed> := [];
    events := [];
    for index := 0 to |outcomes|
      invariant early == Select(outcomes[..index], true) && planned == Select(outcomes[..index], false)
      invariant events == ViewsOf(early) && StoredAt(outcomes, early)
    {
      assert outcomes[..index + 1][..index] == outcomes[..index];
      if outcomes[index].LateStart? || outcomes[index].PlanError? {
        if !outcomes[index].stored {
          EarlyAbort(outcomes, index, early);
          AbortMeansUnstored(outcomes);
          return None, events;
        }
        events := events + [outcomes[index].view];
        early := early + [Indexed(index, outcomes[index].view)];
      } else {
        planned := planned + [Indexed(index, outcomes[index].view)];
      }
    }
    assert outcomes[..|outcomes|] == outcomes;
    var joined, written := JoinThreads(outcomes, early, planned, events);
    events := written;
    AbortMeansUnstored(outcomes);
    if joined.None? { return None, events; }
    SelectCoversAll(outcomes);
    SortSorts(joined.value);
    SortedListsAgree(SortByIndex(joined.value), Numbered(Views(outcomes)));
    return Some(ViewsOf(SortByIndex(joined.value))), events;
  }

  /** Joins the threads in planning order, after the early results. */
  method JoinThreads(outcomes: seq<Outcome>, early: seq<Indexed>, planned: seq<Indexed>, before: seq<MemberView>)
    returns (joined: Option<seq<Indexed>>, events: seq<MemberView>)
    requires early == Select(outcomes, true) && planned == Select(outcomes, false)
    requires before == ViewsOf(early) && StoredAt(outcomes, early)
    ensures joined.Some? ==> joined.value == JournalOrder(outcomes) && events == ViewsOf(joined.value) && StoredAt(outcomes, joined.value)
    ensures joined.None? ==> exists written :: AbortedAt(outcomes, written) && events == ViewsOf(written)
  {
    var done := early;
    events := before;
    SelectMeaning(outcomes, false);
    for handle := 0 to |planned|
      invariant done == early + planned[..handle]
      invariant events == ViewsOf(done) && StoredAt(outcomes, done)
    {
      assert planned[..handle + 1] == planned[..handle] + [planned[handle]];
      assert planned[handle] in planned;
      if !outcomes[planned[handle].index].stored {
        assert done + [planned[handle]] == early + planned[..handle + 1] <= JournalOrder(outcomes);
        assert AbortedAt(outcomes, done);
        return None, events;
      }
      events := events + [planned[handle].view];
      done := done + [planned[handle]];
    }
    assert planned[..|planned|] == planned;
    return Some(done), events;
  }

  lemma {:induction false} SelectGrows(outcomes: seq<Outcome>, n: nat, early: bool)
    requires n <= |outcomes|
    ensures Select(outcomes[..n], early) <= Select(outcomes, early)
  {
    if n == |outcomes| {
      assert outcomes[..n] == outcomes;
    } else {
      SelectGrows(outcomes[..|outcomes| - 1], n, early);
      assert outcomes[..|outcomes| - 1][..n] == outcomes[..n];
    }
  }

  lemma EarlyAbort(outcomes: seq<Outcome>, index: nat, early: seq<Indexed>)
    requires index < |outcomes| && !outcomes[index].Sent? && !outcomes[index].stored
    requires early == Select(outcomes[..index], true) && StoredAt(outcomes, early)
    ensures AbortedAt(outcomes, early)
  {
    assert outcomes[..index + 1][..index] == outcomes[..index];
    SelectGrows(outcomes, index + 1, true);
    assert early + [Indexed(index, outcomes[index].view)] <= JournalOrder(outcomes);
  }

  /** A run in which some result cannot be stored is aborted, and only such a run. */
  lemma AbortMeansUnstored(outcomes: seq<Outcome>)
    ensures (exists written :: AbortedAt(outcomes, written)) ==> StoredThrough(outcomes) < |outcomes|
    ensures StoredAt(outcomes, JournalOrder(outcomes)) ==> StoredThrough(outcomes) == |outcomes|
  {
    SelectCoversAll(outcomes);
    var n := StoredThrough(outcomes);
    if n < |outcomes| {
      var q := Indexed(n, outcomes[n].view);
      assert Numbered(Views(outcomes))[n] == q;
      assert q in JournalOrder(outcomes);
    }
  }

  // ----- Agreement -----

  /** The concurrent journal holds the same member events as the sequential one, in another order. */
  lemma {:induction false} ConcurrentEventsArePermuted(outcomes: seq<Outcome>)
    ensures multiset(ViewsOf(JournalOrder(outcomes))) == multiset(Views(outcomes))
  {
    if outcomes != [] {
      var init, last := outcomes[..|outcomes| - 1], outcomes[|outcomes| - 1];
      ConcurrentEventsArePermuted(init);
      assert Views(outcomes) == Views(init) + [last.view];
      var kind := !last.Sent?;
      assert ViewsOf(Select(outcomes, kind)) == ViewsOf(Select(init, kind)) + [last.view];
      assert Select(outcomes, !kind) == Select(init, !kind);
      OrderMultiset(outcomes);
      OrderMultiset(init);
    }
  }

  lemma OrderMultiset(outcomes: seq<Outcome>)
    ensures multiset(ViewsOf(JournalOrder(outcomes))) ==
            multiset(ViewsOf(Select(outcomes, true))) + multiset(ViewsOf(Select(outcomes, false)))
  {
    assert ViewsOf(JournalOrder(outcomes)) == ViewsOf(Select(outcomes, true)) + ViewsOf(Select(outcomes, false));
  }

  // ----- Overall status -----

  /** Turns the last failed member into a timed-out one. */
  method MarkLastFailureAsTimeout(members: array<MemberView>)
    modifies members
    ensures members[..] == Marked(old(members[..]))
  {
    var i := members.Length;
    while i > 0
      invariant 0 <= i <= members.Length && members[..] == old(members[..])
      invariant forall j :: i <= j < members.Length ==> members[j].status != Failed
    {
      i := i - 1;
      if members[i].status == Failed {
        MarkedAt(members[..], i);
        members[i] := members[i].(status := TimedOut);
        return;
      }
    }
    MarkedNone(members[..]);
  }

  function Marked(members: seq<MemberView>): seq<MemberView> {
    if members == [] then []
    else
      var init, last := members[..|members| - 1], members[|members| - 1];
      if last.status == Failed then init + [last.(status := TimedOut)] else Marked(init) + [last]
  }

  lemma {:induction false} MarkedAt(members: seq<MemberView>, i: nat)
    requires i < |members| && members[i].status == Failed
    requires forall j :: i < j < |members| ==> members[j].status != Failed
    ensures Marked(members) == members[i := members[i].(status := TimedOut)]
  {
    if i < |members| - 1 { MarkedAt(members[..|members| - 1], i); }
  }

  lemma {:induction false} MarkedNone(members: seq<MemberView>)
    requires forall j :: 0 <= j < |members| ==> members[j].status != Failed
    ensures Marked(members) == members
  {
    if members != [] {
      MarkedNone(members[..|members| - 1]);
      SplitLast(members);
    }
  }

  datatype Overall = AllSucceeded | PartialFailure | OverallTimeout | OverallFailed

  predicate Any(members: seq<MemberView>, status: Status) {
    exists i :: 0 <= i < |members| && members[i].status == status
  }

  function SuccessCount(members: seq<MemberView>): nat {
    |Filter(members, (m: MemberView) => m.status == Succeeded)|
  }

  function Finalize(members: seq<MemberView>, groupSize: nat): Overall {
    var failures := |members| - SuccessCount(members);
    if Any(members, TimedOut) then OverallTimeout
    else if failures == 0 && |members| == groupSize then AllSucceeded
    else if SuccessCount(members) > 0 then PartialFailure
    else OverallFailed
  }

  /** The adjustment made when the deadline has passed by the end of the run. */
  function Adjusted(members: seq<MemberView>, expired: bool): seq<MemberView> {
    if expired && !Any(members, TimedOut) && (exists i :: 0 <= i < |members| && members[i].status != Succeeded)
    then Marked(members) else members
  }

  lemma {:induction false} CountIsFullExactly(members: seq<MemberView>)
    ensures SuccessCount(members) == |members| <==> forall i :: 0 <= i < |members| ==> members[i].status == Succeeded
  {
    if members != [] {
      var init := members[..|members| - 1];
      CountIsFullExactly(init);
      SplitLast(members);
    }
  }

  lemma MarkingTimesOut(members: seq<MemberView>)
    requires !Any(members, TimedOut) && exists i :: 0 <= i < |members| && members[i].status != Succeeded
    ensures Any(Marked(members), TimedOut) && |Marked(members)| == |members|
    ensures forall j :: 0 <= j < |members| ==> (Marked(members)[j].status == Succeeded <==> members[j].status == Succeeded)
  {
    var i :| 0 <= i < |members| && members[i].status != Succeeded;
    assert members[i].status == Failed;
    LastFailure(members, i);
    var k :| i <= k < |members| && members[k].status == Failed && Marked(members) == members[k := members[k].(status := TimedOut)];
    assert Marked(members)[k].status == TimedOut;
  }

  lemma {:induction false} LastFailure(members: seq<MemberView>, i: nat)
    requires i < |members| && members[i].status == Failed
    ensures exists k :: i <= k < |members| && members[k].status == Failed
                        && Marked(members) == members[k := members[k].(status := TimedOut)]
    decreases |members| - i
  {
    if exists j :: i < j < |members| && members[j].status == Failed {
      var j :| i < j < |members| && members[j].status == Failed;
      LastFailure(members, j);
    } else {
      MarkedAt(members, i);
    }
  }

  /** Under either policy and either execution, the broadcast is reported successful exactly when every
      member of the group succeeded. */
  lemma SucceededExactly(outcomes: seq<Outcome>, policy: Policy, expired: bool)
    ensures var results := Views(outcomes)[..Reached(Views(outcomes), policy)];
            Finalize(Adjusted(results, expired), |outcomes|) == AllSucceeded <==>
            forall i :: 0 <= i < |outcomes| ==> outcomes[i].view.status == Succeeded
  {
    var views := Views(outcomes);
    var results := views[..Reached(views, policy)];
    var final := Adjusted(results, expired);
    if expired && !Any(results, TimedOut) && (exists i :: 0 <= i < |results| && results[i].status != Succeeded) {
      MarkingTimesOut(results);
      var i :| 0 <= i < |results| && results[i].status != Succeeded;
      assert outcomes[i].view.status != Succeeded;
    } else {
      CountIsFullExactly(results);
      if forall i :: 0 <= i < |outcomes| ==> outcomes[i].view.status == Succeeded {
        if policy.Stop? { ReachedAll(views); }
        assert results == views;
        assert !Any(results, TimedOut);
      } else {
        var i :| 0 <= i < |outcomes| && outcomes[i].view.status != Succeeded;
        assert |results| == |outcomes| ==> results[i] == outcomes[i].view;
      }
    }
  }

  /** The overall status in terms of the members, for a nonempty group of which some were tried. */
  lemma OverallExactly(members: seq<MemberView>, groupSize: nat)
    requires members != [] && |members| <= groupSize
    ensures var overall := Finalize(members, groupSize);
            && (overall == OverallTimeout <==> Any(members, TimedOut))
            && (overall == AllSucceeded <==> |members| == groupSize && forall i :: 0 <= i < |members| ==> members[i].status == Succeeded)
            && (overall == PartialFailure <==>
                  !Any(members, TimedOut) && Any(members, Succeeded) && (|members| < groupSize || Any(members, Failed)))
            && (overall == OverallFailed <==> forall i :: 0 <= i < |members| ==> members[i].status == Failed)
  {
    CountIsFullExactly(members);
    SomeSuccessCounts(members);
  }

  lemma {:induction false} SomeSuccessCounts(members: seq<MemberView>)
    ensures SuccessCount(members) > 0 <==> Any(members, Succeeded)
  {
    if members != [] {
      var init, last := members[..|members| - 1], members[|members| - 1];
      SomeSuccessCounts(init);
      SplitLast(members);
      if Any(init, Succeeded) {
        var i :| 0 <= i < |init| && init[i].status == Succeeded;
        assert members[i].status == Succeeded;
      }
      assert last.status == Succeeded ==> members[|members| - 1].status == Succeeded;
    }
  }

  /** A broadcast is reported as timed out exactly when some member timed out, or the deadline passed and some member
      failed; otherwise its members stand as they are. */
  lemma TimeoutReportedExactly(results: seq<MemberView>, groupSize: nat, expired: bool)
    ensures Finalize(Adjusted(results, expired), groupSize) == OverallTimeout <==>
            Any(results, TimedOut) || (expired && Any(results, Failed))
    ensures !expired || Any(results, TimedOut) || !Any(results, Failed) ==> Adjusted(results, expired) == results
  {
    if expired && !Any(results, TimedOut) && Any(results, Failed) {
      MarkingTimesOut(results);
    }
  }
}

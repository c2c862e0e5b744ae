/** The barrier collective: member refresh, verdicts, and the poll loop. */
module Barrier {
  import opened Common
  import opened Text
  import Durations

  datatype TaskState = Submitted | Working | InputRequired | Completed | Failed | Cancelled | Unknown

  predicate IsTerminal(state: TaskState) {
    state in [Completed, Failed, Cancelled]
  }

  datatype Targets = Targets(explicitStates: bool, targetStates: seq<TaskState>, successStates: seq<TaskState>)

  function Dedup(states: seq<TaskState>): (r: seq<TaskState>)
    ensures forall s :: s in r <==> s in states
    ensures forall i, j :: 0 <= i < j < |r| ==> r[i] != r[j]
    ensures r == [] <==> states == []
  {
    if states == [] then []
    else
      var init, last := Dedup(states[..|states| - 1]), states[|states| - 1];
      assert states == states[..|states| - 1] + [last];
      if last in init then init else init + [last]
  }

  function TargetsFromArgs(states: seq<TaskState>): (t: Targets)
    ensures t.successStates != []
    ensures t.explicitStates <==> states != []
    ensures forall s :: s in t.successStates <==> s in states || (states == [] && s == Completed)
  {
    var unique := Dedup(states);
    if unique == [] then
      Targets(false, [Completed, Failed, Cancelled], [Completed])
    else
      Targets(true, unique, unique)
  }

  datatype MemberStatus =
    | Satisfied
    | Pending
    | MemberFailed
    | MemberCancelled
    | Missing
    | Errored
    | TerminalUnmatched
  {
    predicate IsSuccess() { Satisfied? }
    predicate IsFailure() { MemberFailed? || Errored? || TerminalUnmatched? }
    predicate IsCancellation() { MemberCancelled? }
    predicate IsPending() { Pending? || Missing? }
    predicate IsDisqualified() { MemberFailed? || MemberCancelled? || Errored? || TerminalUnmatched? }
    predicate IsSettled() { IsSuccess() || IsDisqualified() }
  }

  function Classify(state: TaskState, targets: Targets): MemberStatus {
    if state in targets.successStates then Satisfied
    else if !targets.explicitStates then
      match state
      case Failed => MemberFailed
      case Cancelled => MemberCancelled
      case _ => Pending
    else if IsTerminal(state) && state !in targets.targetStates then TerminalUnmatched
    else
      match state
      case Failed => if Failed !in targets.targetStates then MemberFailed else Pending
      case Cancelled => if Cancelled !in targets.targetStates then MemberCancelled else Pending
      case _ => Pending
  }

  /** The status of a record, stated over the `--state` arguments themselves. */
  lemma ClassifyMeaning(states: seq<TaskState>, state: TaskState)
    ensures var status := Classify(state, TargetsFromArgs(states));
            && (status == Satisfied <==> state in states || (states == [] && state == Completed))
            && (status == TerminalUnmatched <==> states != [] && IsTerminal(state) && state !in states)
            && (status == MemberFailed <==> states == [] && state == Failed)
            && (status == MemberCancelled <==> states == [] && state == Cancelled)
            && (status == Pending <==> !IsTerminal(state) && state !in states)
  {
  }

  // ----- Stored tasks -----

  datatype TaskRecord = TaskRecord(
    taskId: string, agent: string, context: Option<string>, state: TaskState, updatedAt: int)

  predicate NotNewer(left: TaskRecord, right: TaskRecord) {
    left.updatedAt < right.updatedAt || (left.updatedAt == right.updatedAt && LexLeq(left.taskId, right.taskId))
  }

  predicate BelongsTo(record: TaskRecord, agent: string, context: string) {
    record.agent == agent && record.context == Some(context)
  }

  function GetTask(tasks: seq<TaskRecord>, taskId: string): (r: Option<TaskRecord>)
    ensures r.Some? ==> r.value in tasks && r.value.taskId == taskId
    ensures r.None? ==> forall t :: t in tasks ==> t.taskId != taskId
  {
    if tasks == [] then None
    else if tasks[0].taskId == taskId then Some(tasks[0])
    else GetTask(tasks[1..], taskId)
  }

  /** `max_by` keeps the later of equal elements. */
  function LatestMemberTask(tasks: seq<TaskRecord>, agent: string, context: string): Option<TaskRecord> {
    if tasks == [] then None
    else
      var best, last := LatestMemberTask(tasks[..|tasks| - 1], agent, context), tasks[|tasks| - 1];
      if !BelongsTo(last, agent, context) then best
      else if best.None? || NotNewer(best.value, last) then Some(last)
      else best
  }

  lemma {:induction false} LatestMemberTaskIsGreatest(tasks: seq<TaskRecord>, agent: string, context: string)
    ensures var r := LatestMemberTask(tasks, agent, context);
            && (r.None? <==> forall t :: t in tasks ==> !BelongsTo(t, agent, context))
            && (r.Some? ==> r.value in tasks && BelongsTo(r.value, agent, context)
                            && forall t :: t in tasks && BelongsTo(t, agent, context) ==> NotNewer(t, r.value))
  {
    if tasks != [] {
      var init, last := tasks[..|tasks| - 1], tasks[|tasks| - 1];
      assert tasks == init + [last];
      LatestMemberTaskIsGreatest(init, agent, context);
      var best := LatestMemberTask(init, agent, context);
      LexTotal(last.taskId, last.taskId);
      if best.Some? && BelongsTo(last, agent, context) {
        LexTotal(best.value.taskId, last.taskId);
        if NotNewer(best.value, last) {
          forall t | t in init && BelongsTo(t, agent, context) ensures NotNewer(t, last) {
            if LexLeq(t.taskId, best.value.taskId) && LexLeq(best.value.taskId, last.taskId) {
              LexTransitive(t.taskId, best.value.taskId, last.taskId);
            }
          }
        }
      }
    }
  }

  /** Spelled out: among the rows of this agent in this context, the chosen one has the latest update time and, of
      those, the greatest task id. */
  lemma LatestMemberTaskMeaning(tasks: seq<TaskRecord>, agent: string, context: string)
    ensures var r := LatestMemberTask(tasks, agent, context);
            && (r.None? <==> forall t :: t in tasks ==> t.agent != agent || t.context != Some(context))
            && (r.Some? ==>
                  && r.value in tasks && r.value.agent == agent && r.value.context == Some(context)
                  && forall t :: t in tasks && t.agent == agent && t.context == Some(context) ==>
                       || t.updatedAt < r.value.updatedAt
                       || (t.updatedAt == r.value.updatedAt && (t.taskId == r.value.taskId || !LexLeq(r.value.taskId, t.taskId))))
  {
    LatestMemberTaskIsGreatest(tasks, agent, context);
    var r := LatestMemberTask(tasks, agent, context);
    if r.Some? {
      forall t | t in tasks && t.agent == agent && t.context == Some(context) && t.updatedAt == r.value.updatedAt
        ensures t.taskId == r.value.taskId || !LexLeq(r.value.taskId, t.taskId)
      {
        assert BelongsTo(t, agent, context) && NotNewer(t, r.value);
        if LexLeq(r.value.taskId, t.taskId) { LexAntisymmetric(r.value.taskId, t.taskId); }
      }
    }
  }

  // ----- One member -----

  datatype Member = Member(
    agent: string,
    taskId: Option<string>,
    context: Option<string>,
    state: Option<TaskState>,
    updatedAt: Option<int>,
    status: MemberStatus,
    attempts: nat,
    hasError: bool)

  function NewMember(agent: string, taskId: Option<string>): Member {
    Member(agent, taskId, None, None, None, Pending, 0, false)
  }

  function Applied(m: Member, record: TaskRecord, targets: Targets): Member {
    m.(taskId := Some(record.taskId), context := record.context, state := Some(record.state),
       updatedAt := Some(record.updatedAt), hasError := false, status := Classify(record.state, targets))
  }

  function MarkedMissing(m: Member): Member {
    m.(state := None, updatedAt := None, status := Missing, hasError := false)
  }

  function MarkedError(m: Member): Member {
    m.(status := Errored, hasError := true)
  }

  datatype Policy = Stop | KeepGoing

  datatype Operation = Operation(
    context: string, targets: Targets, required: nat, timeout: nat, interval: nat, policy: Policy, local: bool)

  const DEFAULT_BARRIER_TIMEOUT: nat := 30_000

  datatype PrepareError =
    | BadHistoryLength | OtherGroup | OtherContext | NoContext | BadIdentifier | UnknownGroup
    | NoMembers | BadRequired | BadDuration(error: Durations.DurationError)

  /** What an earlier broadcast result says of its group and context. */
  datatype Reference = Reference(group: Option<string>, context: Option<string>)

  /** The arguments of a barrier; `idsOk` tells whether the context and group names are well formed. */
  datatype Request = Request(
    group: string, context: Option<string>, reference: Option<Reference>, historyLength: Option<int>, idsOk: bool,
    states: seq<TaskState>, required: Option<nat>, timeout: Option<string>, interval: Option<string>,
    policy: Policy, local: bool)
  {
    function ReferenceContext(): Option<string> {
      if reference.Some? then reference.value.context else None
    }
    predicate GroupsAgree() {
      reference.Some? && reference.value.group.Some? ==> reference.value.group.value == group
    }
    predicate ContextsAgree() {
      context.Some? && ReferenceContext().Some? ==> context == ReferenceContext()
    }
    predicate HistoryOk() {
      historyLength.Some? ==> historyLength.value >= 0
    }
  }

  function BarrierTimeout(argument: Option<string>): Result<nat, Durations.DurationError> {
    if argument.Some? then Durations.ParseDuration(argument.value) else Ok(DEFAULT_BARRIER_TIMEOUT)
  }

  /** What is checked before the group is looked up. */
  function RequestComplaint(q: Request): (r: Option<PrepareError>)
    ensures r.None? <==> q.HistoryOk() && q.GroupsAgree() && q.ContextsAgree() && q.idsOk
                         && (q.context.Some? || q.ReferenceContext().Some?)
    ensures r == Some(BadHistoryLength) <==> q.historyLength.Some? && q.historyLength.value < 0
    ensures r == Some(OtherGroup) <==>
              && (q.historyLength.Some? ==> q.historyLength.value >= 0)
              && q.reference.Some? && q.reference.value.group.Some? && q.reference.value.group.value != q.group
    ensures r == Some(OtherContext) <==>
              && r != Some(BadHistoryLength) && r != Some(OtherGroup)
              && q.reference.Some? && q.reference.value.context.Some? && q.context.Some?
              && q.reference.value.context.value != q.context.value
    ensures r == Some(NoContext) <==>
              && r != Some(BadHistoryLength) && r != Some(OtherGroup)
              && q.context.None? && (q.reference.None? || q.reference.value.context.None?)
    ensures r == Some(BadIdentifier) ==> !q.idsOk
    ensures r.None? ==> q.idsOk && (q.context.Some? || (q.reference.Some? && q.reference.value.context.Some?))
    ensures r.Some? ==> r.value in [BadHistoryLength, OtherGroup, OtherContext, NoContext, BadIdentifier]
  {
    if !q.HistoryOk() then Some(BadHistoryLength)
    else if !q.GroupsAgree() then Some(OtherGroup)
    else if !q.ContextsAgree() then Some(OtherContext)
    else if q.context.None? && q.ReferenceContext().None? then Some(NoContext)
    else if !q.idsOk then Some(BadIdentifier) else None
  }

  /** `members` counts the group's members, `None` for a group that does not exist. */
  function PrepareOperation(q: Request, members: Option<nat>): (r: Result<Operation, PrepareError>)
    ensures RequestComplaint(q).Some? ==> r == Err(RequestComplaint(q).value)
    ensures r == Err(UnknownGroup) <==> RequestComplaint(q).None? && members.None?
    ensures r == Err(NoMembers) <==> RequestComplaint(q).None? && members == Some(0)
    ensures r == Err(BadRequired) <==>
              RequestComplaint(q).None? && members.Some? && members.value > 0
              && q.required.Some? && !(1 <= q.required.value <= members.value)
    ensures r.Err? && r.error.BadDuration? ==>
              || BarrierTimeout(q.timeout) == Err(r.error.error)
              || (BarrierTimeout(q.timeout).Ok? && Durations.BarrierInterval(q.interval) == Err(r.error.error))
    ensures r.Ok? ==> BarrierTimeout(q.timeout) == Ok(r.value.timeout) && Durations.BarrierInterval(q.interval) == Ok(r.value.interval)
    ensures r.Ok? ==> members.Some? && r.value.required == (if q.required.Some? then q.required.value else members.value)
                      && 1 <= r.value.required <= members.value
    ensures r.Ok? ==> r.value.timeout > 0 && 0 < r.value.interval <= Durations.MAX_BARRIER_INTERVAL
    ensures r.Ok? ==> (q.context.Some? ==> r.value.context == q.context.value)
                      && (q.ReferenceContext().Some? ==> r.value.context == q.ReferenceContext().value)
    ensures r.Ok? ==> r.value.targets == TargetsFromArgs(q.states) && r.value.policy == q.policy && r.value.local == q.local
  {
    var complaint := RequestComplaint(q);
    if complaint.Some? then Err(complaint.value)
    else if members.None? then Err(UnknownGroup)
    else if members.value == 0 then Err(NoMembers)
    else
      var wanted := if q.required.Some? then q.required.value else members.value;
      if wanted == 0 || wanted > members.value then Err(BadRequired)
      else
        var limit := BarrierTimeout(q.timeout);
        var pause := Durations.BarrierInterval(q.interval);
        if limit.Err? then Err(BadDuration(limit.error))
        else if pause.Err? then Err(BadDuration(pause.error))
        else
          var context := if q.context.Some? then q.context.value else q.ReferenceContext().value;
          Ok(Operation(context, TargetsFromArgs(q.states), wanted, limit.value, pause.value, q.policy, q.local))
  }

  /** What one refresh of one member meets: the task rows, or a failed read (`None`), and the remote
      reply as persisted, or any failure on the way to it (`None`). */
  datatype Observation = Observation(tasks: Option<seq<TaskRecord>>, remote: Option<TaskRecord>)

  function Lookup(m: Member, op: Operation, tasks: seq<TaskRecord>): Option<TaskRecord> {
    if m.taskId.Some? then GetTask(tasks, m.taskId.value) else LatestMemberTask(tasks, m.agent, op.context)
  }

  function Refreshed(m: Member, op: Operation, obs: Observation): Member {
    var counted := m.(attempts := SaturatingSucc(m.attempts));
    if m.status.IsSettled() then counted
    else if obs.tasks.None? then MarkedError(counted)
    else
      var found := Lookup(counted, op, obs.tasks.value);
      if op.local then
        if found.Some? then Applied(counted, found.value, op.targets) else MarkedMissing(counted)
      else
        var seen := if found.Some? then Applied(counted, found.value, op.targets) else counted;
        if seen.status.IsSettled() then seen
        else if seen.taskId.None? then MarkedMissing(seen)
        else if obs.remote.None? then MarkedError(seen)
        else Applied(seen, obs.remote.value, op.targets)
  }

  /** What a record does to a member that was not settled. */
  predicate Records(m: Member, record: TaskRecord, targets: Targets) {
    && m.taskId == Some(record.taskId) && m.context == record.context && m.state == Some(record.state)
    && m.updatedAt == Some(record.updatedAt) && m.status == Classify(record.state, targets) && !m.hasError
  }

  /** The stored row a member is looked up by: its own task, or else the latest one of its agent here. */
  predicate IsMemberRow(m: Member, op: Operation, tasks: seq<TaskRecord>, record: TaskRecord) {
    && record in tasks
    && if m.taskId.Some? then record.taskId == m.taskId.value
       else BelongsTo(record, m.agent, op.context)
            && forall t :: t in tasks && BelongsTo(t, m.agent, op.context) ==> NotNewer(t, record)
  }

  /** A refresh of an unsettled member reports what was observed: a failure only when something failed, missing
      only when there is no row to go by, and otherwise the member's row or the remote reply. A member left
      pending remotely records exactly the remote reply. */
  lemma RefreshReportsWhatItSaw(m: Member, op: Operation, obs: Observation)
    requires !m.status.IsSettled()
    ensures var after := Refreshed(m, op, obs);
            && (obs.tasks.None? ==> after.status.Errored?)
            && (after.status.Errored? ==> obs.tasks.None? || (!op.local && obs.remote.None?))
            && (obs.tasks.None? ==> after == m.(attempts := after.attempts, status := Errored, hasError := true))
            && (after.status.Missing? ==>
                  after == m.(attempts := after.attempts, state := None, updatedAt := None, status := Missing, hasError := false))
            && (after.status.Missing? <==>
                  && obs.tasks.Some? && (op.local || m.taskId.None?)
                  && forall t :: t in obs.tasks.value ==>
                       if m.taskId.Some? then t.taskId != m.taskId.value else !BelongsTo(t, m.agent, op.context))
            && (!after.status.Errored? && !after.status.Missing? ==>
                  || (exists t :: t in obs.tasks.value && IsMemberRow(m, op, obs.tasks.value, t)
                                  && Records(after, t, op.targets) && (op.local || after.status.IsSettled()))
                  || (!op.local && obs.remote.Some? && Records(after, obs.remote.value, op.targets)))
            && (!op.local && after.status.Pending? ==> obs.remote.Some? && Records(after, obs.remote.value, op.targets))
  {
    if obs.tasks.Some? {
      var tasks := obs.tasks.value;
      LatestMemberTaskIsGreatest(tasks, m.agent, op.context);
      assert Lookup(m, op, tasks) == Lookup(m.(attempts := SaturatingSucc(m.attempts)), op, tasks);
      var found := Lookup(m, op, tasks);
      assert found.Some? ==> IsMemberRow(m, op, tasks, found.value);
    }
  }

  class BarrierMember {
    const agent: string
    var taskId: Option<string>
    var context: Option<string>
    var state: Option<TaskState>
    var updatedAt: Option<int>
    var status: MemberStatus
    var attempts: nat
    var hasError: bool

    constructor (agent: string, taskId: Option<string>)
      ensures View() == NewMember(agent, taskId)
    {
      this.agent := agent;
      this.taskId := taskId;
      context, state, updatedAt := None, None, None;
      status, attempts, hasError := Pending, 0, false;
    }

    function View(): Member
      reads this
    {
      Member(agent, taskId, context, state, updatedAt, status, attempts, hasError)
    }

    method ApplyRecord(record: TaskRecord, targets: Targets)
      modifies this
      ensures View() == Applied(old(View()), record, targets)
    {
      taskId := Some(record.taskId);
      context := record.context;
      state := Some(record.state);
      updatedAt := Some(record.updatedAt);
      hasError := false;
      status := Classify(record.state, targets);
    }

    method MarkMissing()
      modifies this
      ensures View() == MarkedMissing(old(View()))
    {
      state, updatedAt := None, None;
      status := Missing;
      hasError := false;
    }

    method MarkError()
      modifies this
      ensures View() == MarkedError(old(View()))
    {
      status, hasError := Errored, true;
    }

    method RefreshLocal(op: Operation, tasks: seq<TaskRecord>)
      modifies this
      ensures var found := Lookup(old(View()), op, tasks);
              View() == if found.Some? then Applied(old(View()), found.value, op.targets)
                        else MarkedMissing(old(View()))
    {
      var found: Option<TaskRecord>;
      if taskId.Some? {
        found := GetTask(tasks, taskId.value);
      } else {
        found := LatestMemberTask(tasks, agent, op.context);
      }
      if found.Some? {
        ApplyRecord(found.value, op.targets);
      } else {
        MarkMissing();
      }
    }

    /** False when the refresh fails, which the caller turns into `MarkError`. */
    method RefreshRemote(op: Operation, tasks: seq<TaskRecord>, remote: Option<TaskRecord>) returns (ok: bool)
      requires !status.IsSettled()
      modifies this
      ensures var found := Lookup(old(View()), op, tasks);
              var seen := if found.Some? then Applied(old(View()), found.value, op.targets) else old(View());
              var asks := !seen.status.IsSettled() && seen.taskId.Some?;
              && (ok <==> !asks || remote.Some?)
              && View() == if seen.status.IsSettled() then seen
                           else if seen.taskId.None? then MarkedMissing(seen)
                           else if remote.Some? then Applied(seen, remote.value, op.targets)
                           else seen
    {
      if taskId.Some? {
        var found := GetTask(tasks, taskId.value);
        if found.Some? {
          ApplyRecord(found.value, op.targets);
          if status.IsSettled() { return true; }
        }
      } else {
        var found := LatestMemberTask(tasks, agent, op.context);
        if found.Some? {
          taskId := Some(found.value.taskId);
          ApplyRecord(found.value, op.targets);
          if status.IsSettled() { return true; }
        }
      }
      if taskId.None? {
        MarkMissing();
        return true;
      }
      if remote.None? { return false; }
      ApplyRecord(remote.value, op.targets);
      return true;
    }

    method Refresh(op: Operation, obs: Observation)
      modifies this
      ensures View() == Refreshed(old(View()), op, obs)
    {
      attempts := SaturatingSucc(attempts);
      if status.IsSettled() { return; }
      var ok := false;
      if obs.tasks.Some? {
        if op.local {
          RefreshLocal(op, obs.tasks.value);
          ok := true;
        } else {
          ok := RefreshRemote(op, obs.tasks.value, obs.remote);
        }
      }
      if !ok {
        MarkError();
      }
    }
  }

  // ----- Verdicts -----

  datatype Decision = Continue | Succeeded | FailedVerdict | CancelledVerdict | Timeout

  function Count(ms: seq<Member>, p: MemberStatus -> bool): (n: nat)
    ensures n <= |ms|
  {
    if ms == [] then 0 else Count(ms[..|ms| - 1], p) + if p(ms[|ms| - 1].status) then 1 else 0
  }

  function ReachedCount(ms: seq<Member>): nat { Count(ms, (s: MemberStatus) => s.IsSuccess()) }
  function FailureCount(ms: seq<Member>): nat { Count(ms, (s: MemberStatus) => s.IsFailure()) }
  function CancellationCount(ms: seq<Member>): nat { Count(ms, (s: MemberStatus) => s.IsCancellation()) }
  function PendingCount(ms: seq<Member>): nat { Count(ms, (s: MemberStatus) => s.IsPending()) }
  function DisqualifiedCount(ms: seq<Member>): nat { Count(ms, (s: MemberStatus) => s.IsDisqualified()) }

  function Evaluate(op: Operation, ms: seq<Member>, elapsed: nat): Decision {
    if ReachedCount(ms) >= op.required then Succeeded
    else if op.policy.Stop? && FailureCount(ms) > 0 then FailedVerdict
    else if op.policy.Stop? && CancellationCount(ms) > 0 then CancelledVerdict
    else if |ms| - DisqualifiedCount(ms) < op.required then
      if CancellationCount(ms) > 0 && FailureCount(ms) == 0 then CancelledVerdict else FailedVerdict
    else if elapsed >= op.timeout then Timeout
    else Continue
  }

  /** A count is the number of members with such a status. */
  lemma {:induction false} CountIsCardinality(ms: seq<Member>, p: MemberStatus -> bool)
    ensures Count(ms, p) == |set i | 0 <= i < |ms| && p(ms[i].status)|
  {
    if ms != [] {
      var init, n := ms[..|ms| - 1], |ms| - 1;
      CountIsCardinality(init, p);
      var before, now := set i | 0 <= i < |init| && p(init[i].status), set i | 0 <= i < |ms| && p(ms[i].status);
      assert now == before + if p(ms[n].status) then {n} else {};
    }
  }

  /** What each status counts as. */
  lemma StatusKinds(s: MemberStatus)
    ensures s.IsSuccess() <==> s == Satisfied
    ensures s.IsFailure() <==> s in [MemberFailed, Errored, TerminalUnmatched]
    ensures s.IsCancellation() <==> s == MemberCancelled
    ensures s.IsPending() <==> s in [Pending, Missing]
    ensures s.IsDisqualified() <==> s.IsFailure() || s.IsCancellation()
    ensures s.IsSettled() <==> !s.IsPending()
  {
  }

  /** The four reported counts partition the members. */
  lemma {:induction false} CountsPartition(ms: seq<Member>)
    ensures ReachedCount(ms) + FailureCount(ms) + CancellationCount(ms) + PendingCount(ms) == |ms|
    ensures FailureCount(ms) + CancellationCount(ms) == DisqualifiedCount(ms)
  {
    if ms != [] { CountsPartition(ms[..|ms| - 1]); }
  }

  lemma {:induction false} CountMonotone(ms: seq<Member>, ms': seq<Member>, p: MemberStatus -> bool, q: MemberStatus -> bool)
    requires |ms| == |ms'|
    requires forall i :: 0 <= i < |ms| && p(ms[i].status) ==> q(ms'[i].status)
    ensures Count(ms, p) <= Count(ms', q)
  {
    if ms != [] { CountMonotone(ms[..|ms| - 1], ms'[..|ms| - 1], p, q); }
  }

  // ----- Runs -----

  function PollOnce(op: Operation, ms: seq<Member>, obs: seq<Observation>): (r: seq<Member>)
    requires |obs| == |ms|
    ensures |r| == |ms|
  {
    seq(|ms|, i requires 0 <= i < |ms| => Refreshed(ms[i], op, obs[i]))
  }

  ghost predicate Sized(future: seq<seq<Observation>>, n: nat) {
    forall k :: 0 <= k < |future| ==> |future[k]| == n
  }

  function PollAll(op: Operation, ms: seq<Member>, future: seq<seq<Observation>>): (r: seq<Member>)
    requires Sized(future, |ms|)
    ensures |r| == |ms|
  {
    if future == [] then ms else PollOnce(op, PollAll(op, ms, future[..|future| - 1]), future[|future| - 1])
  }

  lemma {:induction false} SettledIsAbsorbing(op: Operation, ms: seq<Member>, future: seq<seq<Observation>>)
    requires Sized(future, |ms|)
    ensures forall i :: 0 <= i < |ms| && ms[i].status.IsSettled() ==> PollAll(op, ms, future)[i].status == ms[i].status
    ensures forall i :: 0 <= i < |ms| && ms[i].status.IsSettled() ==>
              PollAll(op, ms, future)[i].(attempts := 0) == ms[i].(attempts := 0)
  {
    if future != [] { SettledIsAbsorbing(op, ms, future[..|future| - 1]); }
  }

  /** Some continuation of the run, of any length, reaches the quorum. */
  ghost predicate CanReach(op: Operation, ms: seq<Member>) {
    exists future: seq<seq<Observation>> :: Sized(future, |ms|) && ReachedCount(PollAll(op, ms, future)) >= op.required
  }

  function Satisfying(m: Member, op: Operation): Observation
    requires op.targets.successStates != []
  {
    var id := if m.taskId.Some? then m.taskId.value else "task";
    Observation(Some([TaskRecord(id, m.agent, Some(op.context), op.targets.successStates[0], 0)]), None)
  }

  lemma SatisfyingSatisfies(m: Member, op: Operation)
    requires op.targets.successStates != []
    ensures Refreshed(m, op, Satisfying(m, op)).status ==
            if m.status.IsSettled() then m.status else Satisfied
  {
    var obs := Satisfying(m, op);
    var row := obs.tasks.value[0];
    assert obs.tasks.value == [row];
    assert LatestMemberTask([row], m.agent, op.context) == Some(row) by {
      assert [row][..0] == [];
      assert LatestMemberTask([], m.agent, op.context) == None;
    }
    assert GetTask([row], row.taskId) == Some(row);
  }

  lemma CanReachExactly(op: Operation, ms: seq<Member>)
    requires op.targets.successStates != []
    ensures CanReach(op, ms) <==> |ms| - DisqualifiedCount(ms) >= op.required
  {
    CountsPartition(ms);
    if CanReach(op, ms) {
      var future :| Sized(future, |ms|) && ReachedCount(PollAll(op, ms, future)) >= op.required;
      SettledIsAbsorbing(op, ms, future);
      var end := PollAll(op, ms, future);
      CountsPartition(end);
      CountMonotone(ms, end, (s: MemberStatus) => s.IsDisqualified(), (s: MemberStatus) => s.IsDisqualified());
    }
    if |ms| - DisqualifiedCount(ms) >= op.required {
      var obs := seq(|ms|, i requires 0 <= i < |ms| => Satisfying(ms[i], op));
      var end := PollOnce(op, ms, obs);
      forall i | 0 <= i < |ms| ensures end[i].status == if ms[i].status.IsSettled() then ms[i].status else Satisfied {
        SatisfyingSatisfies(ms[i], op);
      }
      CountsPartition(end);
      CountMonotone(end, ms, (s: MemberStatus) => s.IsDisqualified(), (s: MemberStatus) => s.IsDisqualified());
      CountMonotone(end, ms, (s: MemberStatus) => s.IsPending(), (s: MemberStatus) => false);
      NoneCounted(ms);
      assert [obs][..0] == [];
      assert PollAll(op, ms, [obs]) == PollOnce(op, PollAll(op, ms, []), obs) == end;
      assert Sized([obs], |ms|);
    }
  }

  lemma {:induction false} NoneCounted(ms: seq<Member>)
    ensures Count(ms, (s: MemberStatus) => false) == 0
  {
    if ms != [] { NoneCounted(ms[..|ms| - 1]); }
  }

  /** Under the continue policy the early verdicts are exact: failure is announced precisely when the
      quorum is missed and no continuation can reach it. */
  lemma ContinueVerdictsAreExact(op: Operation, states: seq<TaskState>, ms: seq<Member>, elapsed: nat)
    requires op.targets == TargetsFromArgs(states) && op.policy.KeepGoing? && op.required <= |ms|
    ensures var d := Evaluate(op, ms, elapsed);
            && (d == Succeeded <==> ReachedCount(ms) >= op.required)
            && (d == FailedVerdict || d == CancelledVerdict <==> !CanReach(op, ms))
            && (d == Continue || d == Timeout <==> ReachedCount(ms) < op.required && CanReach(op, ms))
            && (d == Timeout ==> elapsed >= op.timeout) && (d == Continue ==> elapsed < op.timeout)
            && (d == CancelledVerdict <==> !CanReach(op, ms) && FailureCount(ms) == 0)
  {
    CanReachExactly(op, ms);
    CountsPartition(ms);
  }

  /** The stop policy announces failure on the first disqualified member, unless the quorum is in. */
  lemma StopVerdicts(op: Operation, states: seq<TaskState>, ms: seq<Member>, elapsed: nat)
    requires op.targets == TargetsFromArgs(states) && op.policy.Stop? && op.required <= |ms|
    ensures var d := Evaluate(op, ms, elapsed);
            && (d == Succeeded <==> ReachedCount(ms) >= op.required)
            && (d == FailedVerdict <==> ReachedCount(ms) < op.required && FailureCount(ms) > 0)
            && (d == CancelledVerdict <==> ReachedCount(ms) < op.required && FailureCount(ms) == 0 && CancellationCount(ms) > 0)
            && (d == Continue || d == Timeout ==> CanReach(op, ms))
            && var waits := ReachedCount(ms) < op.required && FailureCount(ms) == 0 && CancellationCount(ms) == 0;
               && (d == Timeout <==> waits && elapsed >= op.timeout)
               && (d == Continue <==> waits && elapsed < op.timeout)
  {
    CanReachExactly(op, ms);
    CountsPartition(ms);
  }

  // A world gives the observations of every poll; a clock gives the elapsed time read when the members
  // are evaluated (`judged`) and when the sleep is computed (`slept`).

  datatype Clock = Clock(judged: nat -> nat, slept: nat -> nat)

  ghost predicate WorldFits(world: nat -> seq<Observation>, n: nat) {
    forall k: nat :: |world(k)| == n
  }

  function Nap(op: Operation, elapsed: nat): nat {
    var remaining := if elapsed <= op.timeout then op.timeout - elapsed else 1;
    if op.interval <= remaining then op.interval else remaining
  }

  /** A sleep is one interval, cut short so that it does not pass the deadline. */
  lemma NapMeaning(op: Operation, elapsed: nat)
    requires op.interval > 0
    ensures Nap(op, elapsed) <= op.interval
    ensures elapsed <= op.timeout ==> elapsed + Nap(op, elapsed) <= op.timeout
    ensures elapsed <= op.timeout && Nap(op, elapsed) < op.interval ==> elapsed + Nap(op, elapsed) == op.timeout
    ensures elapsed > op.timeout ==> Nap(op, elapsed) == 1
  {
  }

  /** Time does not run backwards, and a sleep lasts at least as long as requested. */
  ghost predicate ClockHonest(op: Operation, clock: Clock) {
    forall k: nat {:trigger clock.slept(k)} ::
      clock.judged(k) <= clock.slept(k) && clock.slept(k) + Nap(op, clock.slept(k)) <= clock.judged(k + 1)
  }

  function StateAfter(op: Operation, ms: seq<Member>, world: nat -> seq<Observation>, polls: nat): (r: seq<Member>)
    requires WorldFits(world, |ms|)
    ensures |r| == |ms|
  {
    if polls == 0 then ms else PollOnce(op, StateAfter(op, ms, world, polls - 1), world(polls - 1))
  }

  function DecisionAt(op: Operation, ms: seq<Member>, world: nat -> seq<Observation>, clock: Clock, poll: nat): Decision
    requires WorldFits(world, |ms|)
  {
    Evaluate(op, StateAfter(op, ms, world, poll + 1), clock.judged(poll))
  }

  ghost predicate WaitsThrough(op: Operation, ms: seq<Member>, world: nat -> seq<Observation>, clock: Clock, polls: nat)
    requires WorldFits(world, |ms|)
  {
    forall k: nat :: k < polls ==> DecisionAt(op, ms, world, clock, k) == Continue
  }

  /** The run ends at `poll` (counted from zero) with decision `d`. */
  ghost predicate EndsAt(op: Operation, ms: seq<Member>, world: nat -> seq<Observation>, clock: Clock, poll: nat, d: Decision)
    requires WorldFits(world, |ms|)
  {
    && d != Continue
    && DecisionAt(op, ms, world, clock, poll) == d
    && WaitsThrough(op, ms, world, clock, poll)
  }

  lemma {:induction false} JudgedGrows(op: Operation, clock: Clock, poll: nat)
    requires ClockHonest(op, clock)
    ensures clock.judged(poll) >= op.timeout || clock.judged(poll) >= poll * op.interval
  {
    if poll > 0 {
      JudgedGrows(op, clock, poll - 1);
      var k: nat := poll - 1;
      assert clock.judged(k) <= clock.slept(k) && clock.slept(k) + Nap(op, clock.slept(k)) <= clock.judged(k + 1);
      assert poll * op.interval == (poll - 1) * op.interval + op.interval;
    }
  }

  /** The ceiling of `total / step`. */
  function CeilDiv(total: nat, step: nat): nat
    requires step > 0
  {
    if total == 0 then 0 else if total <= step then 1 else 1 + CeilDiv(total - step, step)
  }

  lemma {:induction false} CeilDivMeaning(total: nat, step: nat)
    requires step > 0
    ensures total <= CeilDiv(total, step) * step < total + step
  {
    if total > step {
      CeilDivMeaning(total - step, step);
      assert CeilDiv(total, step) * step == CeilDiv(total - step, step) * step + step;
    }
  }

  /** Polls needed at most: ceil(timeout / interval) + 1. */
  function PollBound(op: Operation): nat
    requires op.interval > 0
  {
    CeilDiv(op.timeout, op.interval) + 1
  }

  lemma {:induction false} BelowCeiling(n: nat, total: nat, step: nat)
    requires step > 0 && n * step < total
    ensures n < CeilDiv(total, step)
  {
    if n > 0 {
      assert n * step == (n - 1) * step + step;
      BelowCeiling(n - 1, total - step, step);
    }
  }

  lemma ContinueIsBeforeBound(op: Operation, ms: seq<Member>, elapsed: nat, poll: nat)
    requires op.interval > 0 && Evaluate(op, ms, elapsed) == Continue
    requires elapsed >= op.timeout || elapsed >= poll * op.interval
    ensures poll + 1 < PollBound(op)
  {
    BelowCeiling(poll, op.timeout, op.interval);
  }

  predicate Distinct(members: seq<BarrierMember>) {
    forall i, j :: 0 <= i < j < |members| ==> members[i] != members[j]
  }

  function Views(members: seq<BarrierMember>): (r: seq<Member>)
    reads members
    ensures |r| == |members|
  {
    seq(|members|, i requires 0 <= i < |members| reads members => members[i].View())
  }

  method PollMembers(op: Operation, members: seq<BarrierMember>, obs: seq<Observation>)
    requires Distinct(members) && |obs| == |members|
    modifies members
    ensures Views(members) == PollOnce(op, old(Views(members)), obs)
  {
    for i := 0 to |members|
      invariant forall j :: 0 <= j < i ==> members[j].View() == Refreshed(old(members[j].View()), op, obs[j])
      invariant forall j :: i <= j < |members| ==> members[j].View() == old(members[j].View())
    {
      members[i].Refresh(op, obs[i]);
    }
  }

  /** One turn of the loop that does not end the run leaves room for another poll. */
  lemma TurnContinues(op: Operation, ms: seq<Member>, world: nat -> seq<Observation>, clock: Clock, poll: nat)
    requires WorldFits(world, |ms|) && op.interval > 0 && ClockHonest(op, clock)
    requires WaitsThrough(op, ms, world, clock, poll)
    requires DecisionAt(op, ms, world, clock, poll) == Continue
    ensures WaitsThrough(op, ms, world, clock, poll + 1) && poll + 1 < PollBound(op)
  {
    JudgedGrows(op, clock, poll);
    ContinueIsBeforeBound(op, StateAfter(op, ms, world, poll + 1), clock.judged(poll), poll);
  }

  lemma StateAfterNext(op: Operation, ms: seq<Member>, world: nat -> seq<Observation>, polls: nat)
    requires WorldFits(world, |ms|)
    ensures StateAfter(op, ms, world, polls + 1) == PollOnce(op, StateAfter(op, ms, world, polls), world(polls))
  {
  }

  /** Each poll refreshes every member once, from that member's own observation of that poll. */
  lemma PollsRefreshEach(op: Operation, ms: seq<Member>, world: nat -> seq<Observation>, poll: nat, i: nat)
    requires WorldFits(world, |ms|) && i < |ms|
    ensures StateAfter(op, ms, world, 0) == ms
    ensures StateAfter(op, ms, world, poll + 1)[i] == Refreshed(StateAfter(op, ms, world, poll)[i], op, world(poll)[i])
  {
  }

  /** The poll loop. It always ends, within `PollBound` polls, at the first poll that is not `Continue`. */
  method RunBarrier(op: Operation, members: seq<BarrierMember>, world: nat -> seq<Observation>, clock: Clock)
    returns (decision: Decision, attempts: nat)
    requires Distinct(members) && WorldFits(world, |members|)
    requires op.interval > 0 && ClockHonest(op, clock)
    modifies members
    ensures 1 <= attempts <= PollBound(op)
    ensures EndsAt(op, old(Views(members)), world, clock, attempts - 1, decision)
    ensures Views(members) == StateAfter(op, old(Views(members)), world, attempts)
  {
    ghost var start := Views(members);
    attempts := 0;
    while true
      invariant attempts < PollBound(op)
      invariant Views(members) == StateAfter(op, start, world, attempts)
      invariant WaitsThrough(op, start, world, clock, attempts)
      decreases PollBound(op) - attempts
    {
      PollMembers(op, members, world(attempts));
      StateAfterNext(op, start, world, attempts);
      decision := Evaluate(op, Views(members), clock.judged(attempts));
      assert decision == DecisionAt(op, start, world, clock, attempts);
      if decision != Continue {
        attempts := attempts + 1;
        return;
      }
      TurnContinues(op, start, world, clock, attempts);
      attempts := attempts + 1;
    }
  }

  /** No run times out early, under either policy; a run that goes on is before its deadline. */
  lemma TimeoutIsLate(op: Operation, ms: seq<Member>, world: nat -> seq<Observation>, clock: Clock, poll: nat)
    requires WorldFits(world, |ms|)
    ensures EndsAt(op, ms, world, clock, poll, Timeout) ==> clock.judged(poll) >= op.timeout
    ensures DecisionAt(op, ms, world, clock, poll) == Continue ==> clock.judged(poll) < op.timeout
    ensures clock.judged(poll) >= op.timeout && WaitsThrough(op, ms, world, clock, poll) ==>
              exists d :: EndsAt(op, ms, world, clock, poll, d)
  {
    if clock.judged(poll) >= op.timeout && WaitsThrough(op, ms, world, clock, poll) {
      assert EndsAt(op, ms, world, clock, poll, DecisionAt(op, ms, world, clock, poll));
    }
  }

  // The bound on the number of polls is reached: nobody has a task, and every sleep lasts exactly as requested.

  function IdleWorld(n: nat): nat -> seq<Observation> {
    (k: nat) => seq(n, i => Observation(Some([]), None))
  }

  function ExactTime(op: Operation, poll: nat): nat {
    if poll * op.interval <= op.timeout then poll * op.interval else op.timeout
  }

  function ExactClock(op: Operation): Clock {
    Clock((k: nat) => ExactTime(op, k), (k: nat) => ExactTime(op, k))
  }

  lemma ExactClockIsHonest(op: Operation)
    requires op.interval > 0
    ensures ClockHonest(op, ExactClock(op))
  {
    forall k: nat ensures ExactTime(op, k) + Nap(op, ExactTime(op, k)) <= ExactTime(op, k + 1) {
      assert (k + 1) * op.interval == k * op.interval + op.interval;
    }
  }

  predicate NobodyHasTask(ms: seq<Member>) {
    forall i :: 0 <= i < |ms| ==> ms[i].status.IsPending() && ms[i].taskId.None?
  }

  lemma {:induction false} IdleMembersWait(op: Operation, ms: seq<Member>, polls: nat)
    requires NobodyHasTask(ms)
    ensures NobodyHasTask(StateAfter(op, ms, IdleWorld(|ms|), polls))
  {
    if polls > 0 {
      IdleMembersWait(op, ms, polls - 1);
      StateAfterNext(op, ms, IdleWorld(|ms|), polls - 1);
      assert forall agent, context :: LatestMemberTask([], agent, context) == None;
    }
  }

  lemma {:induction false} AllPendingCount(ms: seq<Member>)
    requires NobodyHasTask(ms)
    ensures ReachedCount(ms) == FailureCount(ms) == CancellationCount(ms) == DisqualifiedCount(ms) == 0
  {
    if ms != [] { AllPendingCount(ms[..|ms| - 1]); }
  }

  lemma IdleDecision(op: Operation, ms: seq<Member>, poll: nat)
    requires NobodyHasTask(ms) && 1 <= op.required <= |ms| && op.interval > 0
    ensures DecisionAt(op, ms, IdleWorld(|ms|), ExactClock(op), poll) ==
            if poll < CeilDiv(op.timeout, op.interval) then Continue else Timeout
  {
    IdleMembersWait(op, ms, poll + 1);
    AllPendingCount(StateAfter(op, ms, IdleWorld(|ms|), poll + 1));
    ExactTimeBefore(op, poll);
    assert ExactClock(op).judged(poll) == ExactTime(op, poll);
  }

  lemma {:induction false} IdleRunWaits(op: Operation, ms: seq<Member>, polls: nat)
    requires NobodyHasTask(ms) && 1 <= op.required <= |ms| && op.interval > 0
    requires polls <= CeilDiv(op.timeout, op.interval)
    ensures WaitsThrough(op, ms, IdleWorld(|ms|), ExactClock(op), polls)
  {
    if polls > 0 {
      IdleRunWaits(op, ms, polls - 1);
      IdleDecision(op, ms, polls - 1);
    }
  }

  lemma IdleRunEnds(op: Operation, ms: seq<Member>)
    requires NobodyHasTask(ms) && 1 <= op.required <= |ms| && op.interval > 0
    ensures EndsAt(op, ms, IdleWorld(|ms|), ExactClock(op), CeilDiv(op.timeout, op.interval), Timeout)
  {
    var last := CeilDiv(op.timeout, op.interval);
    IdleDecision(op, ms, last);
    IdleRunWaits(op, ms, last);
  }

  /** Some run makes every poll the bound allows, and then times out. */
  lemma BoundIsReached(op: Operation, ms: seq<Member>) returns (poll: nat)
    requires NobodyHasTask(ms) && 1 <= op.required <= |ms| && op.interval > 0
    ensures ClockHonest(op, ExactClock(op)) && poll + 1 == PollBound(op)
    ensures EndsAt(op, ms, IdleWorld(|ms|), ExactClock(op), poll, Timeout)
  {
    poll := CeilDiv(op.timeout, op.interval);
    IdleRunEnds(op, ms);
    ExactClockIsHonest(op);
  }

  lemma ScaleUp(a: nat, b: nat, step: nat)
    requires a <= b
    ensures a * step <= b * step
  {
  }

  lemma ExactTimeBefore(op: Operation, poll: nat)
    requires op.interval > 0
    ensures ExactTime(op, poll) < op.timeout <==> poll < CeilDiv(op.timeout, op.interval)
  {
    var last := CeilDiv(op.timeout, op.interval);
    CeilDivMeaning(op.timeout, op.interval);
    if poll < last {
      ScaleUp(poll + 1, last, op.interval);
      assert (poll + 1) * op.interval == poll * op.interval + op.interval;
    } else {
      ScaleUp(last, poll, op.interval);
    }
  }

  lemma {:induction false} PolicyIrrelevantToState(op: Operation, op': Operation, ms: seq<Member>, world: nat -> seq<Observation>, n: nat)
    requires WorldFits(world, |ms|) && op' == op.(policy := op'.policy)
    ensures StateAfter(op, ms, world, n) == StateAfter(op', ms, world, n)
  {
    if n > 0 {
      PolicyIrrelevantToState(op, op', ms, world, n - 1);
      var before := StateAfter(op, ms, world, n - 1);
      assert forall i :: 0 <= i < |ms| ==> Refreshed(before[i], op, world(n - 1)[i]) == Refreshed(before[i], op', world(n - 1)[i]);
    }
  }

  lemma StopWaitsOnlyIfContinueWaits(op: Operation, ms: seq<Member>, elapsed: nat)
    requires op.policy.Stop?
    ensures var other := op.(policy := KeepGoing);
            && (Evaluate(op, ms, elapsed) == Continue ==> Evaluate(other, ms, elapsed) == Continue)
            && (Evaluate(op, ms, elapsed) == Succeeded <==> Evaluate(other, ms, elapsed) == Succeeded)
  {
  }

  /** On the same observations and clock, success under stop is success at the same poll under continue. */
  lemma StopSuccessIsContinueSuccess(op: Operation, ms: seq<Member>, world: nat -> seq<Observation>, clock: Clock, poll: nat)
    requires WorldFits(world, |ms|) && op.policy.Stop?
    requires EndsAt(op, ms, world, clock, poll, Succeeded)
    ensures EndsAt(op.(policy := KeepGoing), ms, world, clock, poll, Succeeded)
  {
    var other := op.(policy := KeepGoing);
    forall k: nat
      ensures DecisionAt(op, ms, world, clock, k) == Continue ==> DecisionAt(other, ms, world, clock, k) == Continue
      ensures DecisionAt(op, ms, world, clock, k) == Succeeded ==> DecisionAt(other, ms, world, clock, k) == Succeeded
    {
      PolicyIrrelevantToState(op, other, ms, world, k + 1);
      StopWaitsOnlyIfContinueWaits(op, StateAfter(op, ms, world, k + 1), clock.judged(k));
    }
  }

  lemma {:induction false} SomeFirstDecision(op: Operation, ms: seq<Member>, world: nat -> seq<Observation>, clock: Clock, from: nat, poll: nat)
    returns (k: nat)
    requires WorldFits(world, |ms|) && from <= poll
    requires WaitsThrough(op, ms, world, clock, from) && DecisionAt(op, ms, world, clock, poll) != Continue
    ensures k <= poll && EndsAt(op, ms, world, clock, k, DecisionAt(op, ms, world, clock, k))
    decreases poll - from
  {
    if DecisionAt(op, ms, world, clock, from) != Continue {
      k := from;
    } else {
      k := SomeFirstDecision(op, ms, world, clock, from + 1, poll);
    }
  }

  /** Stop never ends later than continue. */
  lemma StopEndsNoLater(op: Operation, ms: seq<Member>, world: nat -> seq<Observation>, clock: Clock, poll: nat, d: Decision)
    returns (k: nat, e: Decision)
    requires WorldFits(world, |ms|) && op.policy.KeepGoing?
    requires EndsAt(op, ms, world, clock, poll, d)
    ensures k <= poll && EndsAt(op.(policy := Stop), ms, world, clock, k, e)
  {
    var other := op.(policy := Stop);
    PolicyIrrelevantToState(op, other, ms, world, poll + 1);
    k := SomeFirstDecision(other, ms, world, clock, 0, poll);
    e := DecisionAt(other, ms, world, clock, k);
  }

  /** What a member's fields say about each other. */
  predicate Coherent(m: Member, targets: Targets) {
    && (m.status.Errored? <==> m.hasError)
    && (m.status.Missing? ==> m.state.None? && m.updatedAt.None?)
    && (m.attempts == 0 ==> m.status.Pending? && m.state.None?)
    && (m.attempts > 0 && !m.status.Missing? && !m.status.Errored? ==>
          m.state.Some? && m.taskId.Some? && m.updatedAt.Some? && m.status == Classify(m.state.value, targets))
  }

  ghost predicate Fresh(ms: seq<Member>) {
    forall i :: 0 <= i < |ms| ==> ms[i] == NewMember(ms[i].agent, ms[i].taskId)
  }

  /** On every run each member's status is the classification of its recorded task state, and its
      attempt counter is the number of polls. */
  lemma {:induction false} MembersStayCoherent(op: Operation, ms: seq<Member>, world: nat -> seq<Observation>, n: nat)
    requires WorldFits(world, |ms|) && Fresh(ms)
    ensures forall i :: 0 <= i < |ms| ==>
              && Coherent(StateAfter(op, ms, world, n)[i], op.targets)
              && StateAfter(op, ms, world, n)[i].attempts == (if n <= U64_MAX then n else U64_MAX)
              && StateAfter(op, ms, world, n)[i].agent == ms[i].agent
  {
    if n > 0 {
      MembersStayCoherent(op, ms, world, n - 1);
      StateAfterNext(op, ms, world, n - 1);
      var before := StateAfter(op, ms, world, n - 1);
      forall i | 0 <= i < |ms|
        ensures var after := StateAfter(op, ms, world, n)[i];
                Coherent(after, op.targets) && after.attempts == SaturatingSucc(before[i].attempts) && after.agent == ms[i].agent
      {
        RefreshKeepsCoherence(before[i], op, world(n - 1)[i]);
      }
    }
  }

  lemma RefreshKeepsCoherence(m: Member, op: Operation, obs: Observation)
    requires Coherent(m, op.targets)
    ensures var after := Refreshed(m, op, obs);
            Coherent(after, op.targets) && after.attempts == SaturatingSucc(m.attempts) && after.agent == m.agent
  {
    var counted := m.(attempts := SaturatingSucc(m.attempts));
    assert forall r :: Coherent(Applied(counted, r, op.targets), op.targets);
    assert Coherent(MarkedError(counted), op.targets) && Coherent(MarkedMissing(counted), op.targets);
  }

  /** Members whose recorded task state is one of `states`. */
  function MembersIn(ms: seq<Member>, states: seq<TaskState>): nat {
    if ms == [] then 0
    else
      var last := ms[|ms| - 1];
      MembersIn(ms[..|ms| - 1], states) + if last.state.Some? && last.state.value in states then 1 else 0
  }

  lemma {:induction false} SatisfiedAreRecorded(ms: seq<Member>, targets: Targets)
    requires forall i :: 0 <= i < |ms| ==> Coherent(ms[i], targets)
    ensures ReachedCount(ms) <= MembersIn(ms, targets.successStates)
  {
    if ms != [] {
      SatisfiedAreRecorded(ms[..|ms| - 1], targets);
    }
  }

  /** A run that succeeds has recorded at least `required` members' tasks in a state that counts. */
  lemma SuccessIsWitnessed(op: Operation, ms: seq<Member>, world: nat -> seq<Observation>, clock: Clock, poll: nat)
    requires WorldFits(world, |ms|) && Fresh(ms)
    requires EndsAt(op, ms, world, clock, poll, Succeeded)
    ensures MembersIn(StateAfter(op, ms, world, poll + 1), op.targets.successStates) >= op.required
  {
    MembersStayCoherent(op, ms, world, poll + 1);
    SatisfiedAreRecorded(StateAfter(op, ms, world, poll + 1), op.targets);
  }

  lemma {:induction false} ExplicitNeverCancelsMembers(op: Operation, states: seq<TaskState>, ms: seq<Member>, world: nat -> seq<Observation>, n: nat)
    requires WorldFits(world, |ms|) && states != [] && op.targets == TargetsFromArgs(states)
    requires forall i :: 0 <= i < |ms| ==> ms[i].status == Pending
    ensures forall i :: 0 <= i < |ms| ==> !StateAfter(op, ms, world, n)[i].status.MemberCancelled?
    ensures CancellationCount(StateAfter(op, ms, world, n)) == 0
  {
    if n > 0 {
      ExplicitNeverCancelsMembers(op, states, ms, world, n - 1);
    }
    var now := StateAfter(op, ms, world, n);
    CountMonotone(now, now, (s: MemberStatus) => s.IsCancellation(), (s: MemberStatus) => false);
    NoneCounted(now);
  }

  /** With explicit `--state` values no run ends cancelled: a cancelled task is a terminal state that
      was not asked for. */
  lemma ExplicitNeverEndsCancelled(op: Operation, states: seq<TaskState>, ms: seq<Member>, world: nat -> seq<Observation>, clock: Clock, poll: nat)
    requires WorldFits(world, |ms|) && states != [] && op.targets == TargetsFromArgs(states)
    requires forall i :: 0 <= i < |ms| ==> ms[i].status == Pending
    ensures !EndsAt(op, ms, world, clock, poll, CancelledVerdict)
  {
    ExplicitNeverCancelsMembers(op, states, ms, world, poll + 1);
  }
}

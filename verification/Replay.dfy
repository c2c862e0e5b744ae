/** Event replay: summaries of contexts and tasks accumulated over a journal. */
module Replay {
  import opened Common
  import opened Text

  // ----- Events -----

  datatype Json = JObject(fields: map<string, Json>) | JString(text: string) | JOther

  datatype EventRecord = EventRecord(
    sequence: int, timestamp: int, source: string, eventType: string,
    agent: Option<string>, context: Option<string>, task: Option<string>, payload: Json)

  function AtPath(value: Json, path: seq<string>): Option<Json>
    decreases |path|
  {
    if path == [] then Some(value)
    else if value.JObject? && path[0] in value.fields then AtPath(value.fields[path[0]], path[1..])
    else None
  }

  /** The first path that leads to a string. */
  function StringAtPaths(value: Json, paths: seq<seq<string>>): Option<string> {
    if paths == [] then None
    else
      var found := AtPath(value, paths[0]);
      if found.Some? && found.value.JString? then Some(found.value.text) else StringAtPaths(value, paths[1..])
  }

  function WithoutPrefix(text: string): string {
    if "TASK_STATE_" <= text || "task_state_" <= text then text[11..] else text
  }

  function Underscored(text: string): string {
    seq(|text|, i requires 0 <= i < |text| => if text[i] == '-' then '_' else text[i])
  }

  function NormalizeState(text: string): string {
    Underscored(AsciiLower(WithoutPrefix(Trim(text))))
  }

  function ContextHint(r: EventRecord): Option<string> {
    OrElse(r.context, StringAtPaths(r.payload, [["context_id"], ["contextId"], ["task", "context_id"], ["task", "contextId"]]))
  }

  function TaskStateIn(r: EventRecord): Option<string> {
    var found := StringAtPaths(r.payload,
      [["state"], ["task", "state"], ["task", "status", "state"], ["status", "state"],
       ["response", "state"], ["response", "task", "status", "state"]]);
    if found.Some? then Some(NormalizeState(found.value)) else None
  }

  function ContextStateIn(r: EventRecord): Option<string> {
    StringAtPaths(r.payload, [["context", "state"], ["context_state"], ["state"]])
  }

  function ContextNameIn(r: EventRecord): Option<string> {
    StringAtPaths(r.payload, [["context", "name"], ["name"]])
  }

  // ----- What is read from a payload -----

  /** Following the path from object to object ends at this string. */
  predicate LeadsTo(value: Json, path: seq<string>, text: string)
    decreases |path|
  {
    if path == [] then value == JString(text)
    else value.JObject? && path[0] in value.fields && LeadsTo(value.fields[path[0]], path[1..], text)
  }

  lemma {:induction false} AtPathLeads(value: Json, path: seq<string>)
    ensures forall text :: LeadsTo(value, path, text) <==> AtPath(value, path) == Some(JString(text))
    decreases |path|
  {
    if path != [] && value.JObject? && path[0] in value.fields { AtPathLeads(value.fields[path[0]], path[1..]); }
  }

  ghost predicate LeadsNowhere(value: Json, path: seq<string>) {
    forall text :: !LeadsTo(value, path, text)
  }

  /** The result is the string at the first path that leads to one, and none exactly when no path does. */
  lemma {:induction false} FirstPathDecides(value: Json, paths: seq<seq<string>>) returns (k: nat)
    ensures k <= |paths| && forall j :: 0 <= j < k ==> LeadsNowhere(value, paths[j])
    ensures var r := StringAtPaths(value, paths);
            if k < |paths| then r.Some? && LeadsTo(value, paths[k], r.value) else r.None?
  {
    if paths == [] {
      k := 0;
    } else {
      AtPathLeads(value, paths[0]);
      var found := AtPath(value, paths[0]);
      if found.Some? && found.value.JString? {
        k := 0;
      } else {
        var later := FirstPathDecides(value, paths[1..]);
        k := later + 1;
        assert forall j :: 0 < j < k ==> paths[j] == paths[1..][j - 1];
      }
    }
  }

  /** The member of an object, and the text of a member. */
  function Member(value: Json, key: string): Json {
    if value.JObject? && key in value.fields then value.fields[key] else JOther
  }

  function TextMember(value: Json, key: string): Option<string> {
    var member := Member(value, key);
    if member.JString? then Some(member.text) else None
  }

  /** The text at the end of a chain of members. */
  function AtMembers(value: Json, path: seq<string>): Option<string>
    requires path != []
    decreases |path|
  {
    if |path| == 1 then TextMember(value, path[0]) else AtMembers(Member(value, path[0]), path[1..])
  }

  lemma {:induction false} AtPathMembers(value: Json, path: seq<string>)
    requires path != []
    ensures var found := AtPath(value, path);
            AtMembers(value, path) == if found.Some? && found.value.JString? then Some(found.value.text) else None
    decreases |path|
  {
    if |path| == 1 {
      assert path[1..] == [];
    } else if value.JObject? && path[0] in value.fields {
      AtPathMembers(value.fields[path[0]], path[1..]);
    } else {
      NothingInside(path[1..]);
    }
  }

  lemma {:induction false} NothingInside(path: seq<string>)
    requires path != []
    ensures AtMembers(JOther, path) == None
  {
    if |path| > 1 { NothingInside(path[1..]); }
  }

  lemma OnePath(p: Json, path: seq<string>, rest: seq<seq<string>>)
    requires path != []
    ensures StringAtPaths(p, [path] + rest) == OrElse(AtMembers(p, path), StringAtPaths(p, rest))
  {
    assert ([path] + rest)[1..] == rest;
    AtPathMembers(p, path);
  }

  lemma TwoPaths(p: Json, a: seq<string>, b: seq<string>)
    requires a != [] && b != []
    ensures StringAtPaths(p, [a, b]) == OrElse(AtMembers(p, a), AtMembers(p, b))
  {
    OnePath(p, a, [b]);
    OnePath(p, b, []);
    assert [a] + [b] == [a, b] && [b] + [] == [b];
  }

  lemma ThreePaths(p: Json, a: seq<string>, b: seq<string>, c: seq<string>)
    requires a != [] && b != [] && c != []
    ensures StringAtPaths(p, [a, b, c]) == OrElse(AtMembers(p, a), OrElse(AtMembers(p, b), AtMembers(p, c)))
  {
    OnePath(p, a, [b, c]);
    TwoPaths(p, b, c);
    assert [a] + [b, c] == [a, b, c];
  }

  lemma FourPaths(p: Json, a: seq<string>, b: seq<string>, c: seq<string>, d: seq<string>)
    requires a != [] && b != [] && c != [] && d != []
    ensures StringAtPaths(p, [a, b, c, d]) ==
            OrElse(AtMembers(p, a), OrElse(AtMembers(p, b), OrElse(AtMembers(p, c), AtMembers(p, d))))
  {
    OnePath(p, a, [b, c, d]);
    ThreePaths(p, b, c, d);
    assert [a] + [b, c, d] == [a, b, c, d];
  }

  lemma SixPaths(p: Json, a: seq<string>, b: seq<string>, c: seq<string>, d: seq<string>, e: seq<string>, f: seq<string>)
    requires a != [] && b != [] && c != [] && d != [] && e != [] && f != []
    ensures StringAtPaths(p, [a, b, c, d, e, f]) ==
            OrElse(AtMembers(p, a), OrElse(AtMembers(p, b), OrElse(AtMembers(p, c),
            OrElse(AtMembers(p, d), OrElse(AtMembers(p, e), AtMembers(p, f))))))
  {
    OnePath(p, a, [b, c, d, e, f]);
    OnePath(p, b, [c, d, e, f]);
    FourPaths(p, c, d, e, f);
    assert [a] + [b, c, d, e, f] == [a, b, c, d, e, f] && [b] + [c, d, e, f] == [b, c, d, e, f];
  }

  lemma Inside(p: Json, a: string, path: seq<string>)
    requires path != []
    ensures AtMembers(p, [a] + path) == AtMembers(Member(p, a), path)
  {
    assert ([a] + path)[1..] == path;
  }

  lemma Members(p: Json, a: string, b: string, c: string, d: string)
    ensures AtMembers(p, [a]) == TextMember(p, a)
    ensures AtMembers(p, [a, b]) == TextMember(Member(p, a), b)
    ensures AtMembers(p, [a, b, c]) == TextMember(Member(Member(p, a), b), c)
    ensures AtMembers(p, [a, b, c, d]) == TextMember(Member(Member(Member(p, a), b), c), d)
  {
    var q, r := Member(p, a), Member(Member(p, a), b);
    assert [a] + [b] == [a, b] && [a] + [b, c] == [a, b, c] && [a] + [b, c, d] == [a, b, c, d];
    assert [b] + [c] == [b, c] && [b] + [c, d] == [b, c, d] && [c] + [d] == [c, d];
    Inside(p, a, [b]);
    Inside(p, a, [b, c]);
    Inside(p, a, [b, c, d]);
    Inside(q, b, [c]);
    Inside(q, b, [c, d]);
    Inside(r, c, [d]);
  }

  /** A task's state is the first of six texts, normalized. */
  lemma TaskStateMeaning(r: EventRecord)
    ensures var p := r.payload;
            var task, response := Member(p, "task"), Member(p, "response");
            var found :=
              OrElse(TextMember(p, "state"),
              OrElse(TextMember(task, "state"),
              OrElse(TextMember(Member(task, "status"), "state"),
              OrElse(TextMember(Member(p, "status"), "state"),
              OrElse(TextMember(response, "state"),
                     TextMember(Member(Member(response, "task"), "status"), "state"))))));
            TaskStateIn(r) == if found.Some? then Some(NormalizeState(found.value)) else None
  {
    var p := r.payload;
    SixPaths(p, ["state"], ["task", "state"], ["task", "status", "state"],
             ["status", "state"], ["response", "state"], ["response", "task", "status", "state"]);
    Members(p, "state", "", "", "");
    Members(p, "task", "state", "", "");
    Members(p, "task", "status", "state", "");
    Members(p, "status", "state", "", "");
    Members(p, "response", "state", "", "");
    Members(p, "response", "task", "status", "state");
  }

  /** A record's context, for a task: its own, or the first of four texts. */
  lemma ContextHintMeaning(r: EventRecord)
    ensures var p := r.payload;
            var task := Member(p, "task");
            ContextHint(r) ==
              OrElse(r.context,
              OrElse(TextMember(p, "context_id"),
              OrElse(TextMember(p, "contextId"),
              OrElse(TextMember(task, "context_id"), TextMember(task, "contextId")))))
  {
    var p := r.payload;
    FourPaths(p, ["context_id"], ["contextId"], ["task", "context_id"], ["task", "contextId"]);
    Members(p, "context_id", "", "", "");
    Members(p, "contextId", "", "", "");
    Members(p, "task", "context_id", "", "");
    Members(p, "task", "contextId", "", "");
  }

  /** A context's state and name, from a record that names it. */
  lemma ContextStateAndName(r: EventRecord)
    ensures var p := r.payload;
            && ContextStateIn(r) ==
                 OrElse(TextMember(Member(p, "context"), "state"), OrElse(TextMember(p, "context_state"), TextMember(p, "state")))
            && ContextNameIn(r) == OrElse(TextMember(Member(p, "context"), "name"), TextMember(p, "name"))
  {
    var p := r.payload;
    ThreePaths(p, ["context", "state"], ["context_state"], ["state"]);
    TwoPaths(p, ["context", "name"], ["name"]);
    Members(p, "context", "state", "", "");
    Members(p, "context_state", "", "", "");
    Members(p, "state", "", "", "");
    Members(p, "context", "name", "", "");
    Members(p, "name", "", "", "");
  }

  /** Letters lowered and hyphens turned into underscores. */
  function StateChar(c: char): char {
    if c == '-' then '_' else if 'A' <= c <= 'Z' then ((c as int) + 32) as char else c
  }

  predicate IsStatePrefix(prefix: string) {
    prefix == "TASK_STATE_" || prefix == "task_state_"
  }

  predicate Prefixed(text: string) {
    "TASK_STATE_" <= text || "task_state_" <= text
  }

  lemma PrefixDropped(prefix: string, body: string)
    requires IsStatePrefix(prefix)
    ensures WithoutPrefix(prefix + body) == body
  {
    var text := prefix + body;
    assert |prefix| == 11 && text[11..] == body;
  }

  lemma NormalizedChars(text: string)
    ensures var r, bare := NormalizeState(text), WithoutPrefix(Trim(text));
            |r| == |bare| && forall i :: 0 <= i < |bare| ==> r[i] == StateChar(bare[i])
  {
  }

  /** The characters of the state are replaced one by one. */
  predicate StateNamed(state: string, body: string) {
    |state| == |body| && forall i :: 0 <= i < |body| ==> state[i] == StateChar(body[i])
  }

  /** Surrounding whitespace goes, and one prefix in either case. */
  lemma NormalizedState(before: string, prefix: string, body: string, after: string)
    requires forall i :: 0 <= i < |before| ==> IsWhitespace(before[i])
    requires forall i :: 0 <= i < |after| ==> IsWhitespace(after[i])
    requires prefix + body != "" && Trimmed(prefix + body)
    requires IsStatePrefix(prefix) || (prefix == "" && !Prefixed(body))
    ensures StateNamed(NormalizeState(before + ((prefix + body) + after)), body)
  {
    TrimAround(before, prefix + body, after);
    BareState(prefix, body);
    StateOfBare(before + ((prefix + body) + after), prefix + body, body);
  }

  lemma BareState(prefix: string, body: string)
    requires IsStatePrefix(prefix) || (prefix == "" && !Prefixed(body))
    ensures WithoutPrefix(prefix + body) == body
  {
    if prefix == "" { assert prefix + body == body; } else { PrefixDropped(prefix, body); }
  }

  lemma StateOfBare(text: string, trimmed: string, body: string)
    requires Trim(text) == trimmed && WithoutPrefix(trimmed) == body
    ensures StateNamed(NormalizeState(text), body)
  {
    NormalizedChars(text);
  }

  // ----- Accumulators -----

  datatype TaskAcc = TaskAcc(
    agent: Option<string>, context: Option<string>, state: Option<string>, eventCount: nat,
    firstSequence: int, lastSequence: int, firstTimestamp: int, lastTimestamp: int, lastEventType: string)
  {
    function Observe(r: EventRecord): TaskAcc {
      this.(eventCount := eventCount + 1, lastSequence := r.sequence, lastTimestamp := r.timestamp, lastEventType := r.eventType)
    }
  }

  function NewTask(r: EventRecord): TaskAcc {
    TaskAcc(r.agent, r.context, None, 0, r.sequence, r.sequence, r.timestamp, r.timestamp, r.eventType)
  }

  datatype ContextAcc = ContextAcc(
    agent: Option<string>, state: Option<string>, name: Option<string>, taskIds: set<string>, eventCount: nat,
    firstSequence: int, lastSequence: int, firstTimestamp: int, lastTimestamp: int, lastEventType: string)
  {
    function Observe(r: EventRecord): ContextAcc {
      this.(eventCount := eventCount + 1, lastSequence := r.sequence, lastTimestamp := r.timestamp, lastEventType := r.eventType)
    }
  }

  function NewContext(r: EventRecord): ContextAcc {
    ContextAcc(r.agent, None, None, {}, 0, r.sequence, r.sequence, r.timestamp, r.timestamp, r.eventType)
  }

  // ----- What the accumulators should hold, key by key -----

  predicate OfTask(r: EventRecord, t: string) { r.task == Some(t) }

  /** The records of one task. */
  function Of(records: seq<EventRecord>, t: string): seq<EventRecord> {
    Filter(records, (r: EventRecord) => OfTask(r, t))
  }

  /** A task's summary, from its own records alone. */
  function TaskSummary(own: seq<EventRecord>): TaskAcc
    requires own != []
  {
    var first, last := own[0], own[|own| - 1];
    TaskAcc(
      FirstSome(Map((r: EventRecord) => r.agent, own)),
      FirstSome(Map(ContextHint, own)),
      LastSome(Map(TaskStateIn, own)),
      |own|, first.sequence, last.sequence, first.timestamp, last.timestamp, last.eventType)
  }

  /** The context a task is bound to: the first its records name. */
  function BoundContext(records: seq<EventRecord>, t: string): Option<string> {
    FirstSome(Map(ContextHint, Of(records, t)))
  }

  /** One observation of a context; `named` when the record carries the context itself. */
  datatype Visit = Visit(record: EventRecord, named: bool)

  /** Whether the last record of a journal belongs to a task bound, by then, to `c`. */
  predicate EndsInTaskOf(records: seq<EventRecord>, c: string)
    requires records != []
  {
    var last := records[|records| - 1];
    last.task.Some? && BoundContext(records, last.task.value) == Some(c)
  }

  /** All observations of a context, in order; a record may count twice. */
  function Visits(records: seq<EventRecord>, c: string): seq<Visit> {
    if records == [] then []
    else
      var init, last := records[..|records| - 1], records[|records| - 1];
      Visits(init, c)
      + (if last.context == Some(c) then [Visit(last, true)] else [])
      + (if EndsInTaskOf(records, c) then [Visit(last, false)] else [])
  }

  function TaskIdsOf(records: seq<EventRecord>, c: string): set<string> {
    set r | r in records && r.task.Some? && BoundContext(records, r.task.value) == Some(c) :: r.task.value
  }

  function ContextSummary(visits: seq<Visit>, taskIds: set<string>): ContextAcc
    requires visits != []
  {
    var first, last := visits[0].record, visits[|visits| - 1].record;
    ContextAcc(
      FirstSome(Map((v: Visit) => v.record.agent, visits)),
      LastSome(Map((v: Visit) => if v.named then ContextStateIn(v.record) else None, visits)),
      LastSome(Map((v: Visit) => if v.named then ContextNameIn(v.record) else None, visits)),
      taskIds, |visits|, first.sequence, last.sequence, first.timestamp, last.timestamp, last.eventType)
  }

  predicate OfType(r: EventRecord, eventType: string) { r.eventType == eventType }

  function TypeCount(records: seq<EventRecord>, eventType: string): nat {
    |Filter(records, (r: EventRecord) => OfType(r, eventType))|
  }

  // ----- The three accumulated maps agree with the summaries -----

  ghost predicate TypesAgree(eventTypes: map<string, nat>, records: seq<EventRecord>) {
    forall e :: (e in eventTypes <==> TypeCount(records, e) > 0) && (e in eventTypes ==> eventTypes[e] == TypeCount(records, e))
  }

  ghost predicate TasksAgree(tasks: map<string, TaskAcc>, records: seq<EventRecord>) {
    forall t :: (t in tasks <==> Of(records, t) != []) && (t in tasks ==> tasks[t] == TaskSummary(Of(records, t)))
  }

  ghost predicate ContextAgrees(contexts: map<string, ContextAcc>, c: string, visits: seq<Visit>, taskIds: set<string>) {
    (c in contexts <==> visits != []) && (visits != [] ==> contexts[c] == ContextSummary(visits, taskIds))
  }

  ghost predicate ContextsAgree(contexts: map<string, ContextAcc>, records: seq<EventRecord>) {
    forall c :: ContextAgrees(contexts, c, Visits(records, c), TaskIdsOf(records, c))
  }

  /** Agreement between the two halves of one record: `r` has been counted by the context it names. */
  ghost predicate ContextsAgreeMidway(contexts: map<string, ContextAcc>, records: seq<EventRecord>, r: EventRecord) {
    forall c :: ContextAgrees(contexts, c, NamedVisits(records, r, c), TaskIdsOf(records, c))
  }

  /** The accumulator after one more of the task's records. */
  function TaskStep(acc: TaskAcc, r: EventRecord): TaskAcc {
    var seen := acc.Observe(r);
    seen.(agent := OrElse(acc.agent, r.agent), context := OrElse(acc.context, ContextHint(r)),
          state := OrElse(TaskStateIn(r), acc.state))
  }

  lemma TaskSummarySnoc(own: seq<EventRecord>, r: EventRecord)
    ensures TaskSummary(own + [r]) == TaskStep(if own == [] then NewTask(r) else TaskSummary(own), r)
  {
    if own == [] {
      assert own + [r] == [r];
      SummarizedOne((r: EventRecord) => r.agent, r);
      SummarizedOne(ContextHint, r);
      SummarizedOne(TaskStateIn, r);
    } else {
      SummarizedSnoc((r: EventRecord) => r.agent, own, r);
      SummarizedSnoc(ContextHint, own, r);
      SummarizedSnoc(TaskStateIn, own, r);
    }
  }

  /** The accumulator after one more observation of the context; a task observation also records the task. */
  function ContextStep(acc: ContextAcc, v: Visit): ContextAcc {
    var seen := acc.Observe(v.record).(agent := OrElse(acc.agent, v.record.agent));
    if v.named then
      seen.(state := OrElse(ContextStateIn(v.record), acc.state), name := OrElse(ContextNameIn(v.record), acc.name))
    else if v.record.task.Some? then seen.(taskIds := acc.taskIds + {v.record.task.value})
    else seen
  }

  lemma ContextSummarySnoc(visits: seq<Visit>, v: Visit, taskIds: set<string>, taskIds': set<string>)
    requires visits == [] ==> taskIds == {}
    requires taskIds' == taskIds + if !v.named && v.record.task.Some? then {v.record.task.value} else {}
    ensures ContextSummary(visits + [v], taskIds') ==
            ContextStep(if visits == [] then NewContext(v.record) else ContextSummary(visits, taskIds), v)
  {
    var agent := (v: Visit) => v.record.agent;
    var state := (v: Visit) => if v.named then ContextStateIn(v.record) else None;
    var name := (v: Visit) => if v.named then ContextNameIn(v.record) else None;
    if visits == [] {
      assert visits + [v] == [v];
      SummarizedOne(agent, v);
      SummarizedOne(state, v);
      SummarizedOne(name, v);
    } else {
      SummarizedSnoc(agent, visits, v);
      SummarizedSnoc(state, visits, v);
      SummarizedSnoc(name, visits, v);
    }
  }

  lemma OfSnoc(records: seq<EventRecord>, r: EventRecord, t: string)
    ensures Of(records + [r], t) == Of(records, t) + if OfTask(r, t) then [r] else []
  {
    FilterSnoc(records, r, (r: EventRecord) => OfTask(r, t));
  }

  lemma BoundContextSnoc(records: seq<EventRecord>, r: EventRecord, t: string)
    ensures BoundContext(records + [r], t) ==
            if OfTask(r, t) then OrElse(BoundContext(records, t), ContextHint(r)) else BoundContext(records, t)
  {
    OfSnoc(records, r, t);
    if OfTask(r, t) {
      SummarizedSnoc(ContextHint, Of(records, t), r);
    } else {
      assert Of(records, t) + [] == Of(records, t);
    }
  }

  /** A task's binding never changes once made. */
  lemma {:induction false} BindingIsForever(records: seq<EventRecord>, later: seq<EventRecord>, t: string)
    requires BoundContext(records, t).Some?
    ensures BoundContext(records + later, t) == BoundContext(records, t)
  {
    if later == [] {
      assert records + later == records;
    } else {
      var init, last := later[..|later| - 1], later[|later| - 1];
      BindingIsForever(records, init, t);
      assert records + later == (records + init) + [last];
      BoundContextSnoc(records + init, last, t);
    }
  }

  lemma TaskIdsSnoc(records: seq<EventRecord>, r: EventRecord, c: string)
    ensures TaskIdsOf(records + [r], c) ==
            TaskIdsOf(records, c) + if EndsInTaskOf(records + [r], c) then {r.task.value} else {}
  {
    forall t ensures t in TaskIdsOf(records + [r], c) <==>
                     t in TaskIdsOf(records, c) || (EndsInTaskOf(records + [r], c) && t == r.task.value) {
      BoundContextSnoc(records, r, t);
      if t in TaskIdsOf(records, c) {
        var q :| q in records && q.task == Some(t) && BoundContext(records, t) == Some(c);
        assert q in records + [r];
      }
      if t in TaskIdsOf(records + [r], c) && !(r.task == Some(t)) {
        var q :| q in records + [r] && q.task == Some(t) && BoundContext(records + [r], t) == Some(c);
        assert q in records;
      }
      if r.task == Some(t) && BoundContext(records, t) == Some(c) {
        BoundMeansRecorded(records, t);
      }
      assert r in records + [r];
    }
  }

  lemma BoundMeansRecorded(records: seq<EventRecord>, t: string)
    requires BoundContext(records, t).Some?
    ensures exists q :: q in records && q.task == Some(t)
  {
    FilterMembers(records, (r: EventRecord) => OfTask(r, t));
    assert Of(records, t)[0] in Of(records, t);
  }

  lemma VisitsSnoc(records: seq<EventRecord>, r: EventRecord, c: string)
    ensures Visits(records + [r], c) ==
            Visits(records, c) + (if r.context == Some(c) then [Visit(r, true)] else [])
                               + (if EndsInTaskOf(records + [r], c) then [Visit(r, false)] else [])
  {
    assert (records + [r])[..|records|] == records;
  }

  /** Observed by name only: the state between the two halves of one record. */
  function NamedVisits(records: seq<EventRecord>, r: EventRecord, c: string): seq<Visit> {
    Visits(records, c) + if r.context == Some(c) then [Visit(r, true)] else []
  }

  lemma {:induction false} VisitsCoverTaskIds(records: seq<EventRecord>, c: string)
    ensures Visits(records, c) == [] ==> TaskIdsOf(records, c) == {}
  {
    if records != [] {
      var init, last := records[..|records| - 1], records[|records| - 1];
      SplitLast(records);
      VisitsCoverTaskIds(init, c);
      TaskIdsSnoc(init, last, c);
    }
  }

  // ----- One record -----

  function Visited(contexts: map<string, ContextAcc>, c: string, v: Visit): map<string, ContextAcc> {
    contexts[c := ContextStep(if c in contexts then contexts[c] else NewContext(v.record), v)]
  }

  function Attended(tasks: map<string, TaskAcc>, t: string, r: EventRecord): map<string, TaskAcc> {
    tasks[t := TaskStep(if t in tasks then tasks[t] else NewTask(r), r)]
  }

  /** Counting a record at the context it names. */
  function NamedStep(contexts: map<string, ContextAcc>, r: EventRecord): map<string, ContextAcc> {
    if r.context.Some? then Visited(contexts, r.context.value, Visit(r, true)) else contexts
  }

  /** Counting a record at its task. */
  function TaskMapStep(tasks: map<string, TaskAcc>, r: EventRecord): map<string, TaskAcc> {
    if r.task.Some? then Attended(tasks, r.task.value, r) else tasks
  }

  /** The context the task of a record is bound to in the task map. */
  function BoundIn(tasks: map<string, TaskAcc>, r: EventRecord): Option<string> {
    if r.task.Some? && r.task.value in tasks then tasks[r.task.value].context else None
  }

  /** Counting a record at the context its task is bound to. */
  function BoundStep(contexts: map<string, ContextAcc>, bound: Option<string>, r: EventRecord): map<string, ContextAcc> {
    if bound.Some? then Visited(contexts, bound.value, Visit(r, false)) else contexts
  }

  /** The context the task of the last record is bound to, by then. */
  function LastBound(records: seq<EventRecord>, r: EventRecord): Option<string> {
    if r.task.Some? then BoundContext(records + [r], r.task.value) else None
  }

  lemma NamedStepAgrees(contexts: map<string, ContextAcc>, records: seq<EventRecord>, r: EventRecord)
    requires ContextsAgree(contexts, records)
    ensures ContextsAgreeMidway(NamedStep(contexts, r), records, r)
  {
    forall c ensures ContextAgrees(NamedStep(contexts, r), c, NamedVisits(records, r, c), TaskIdsOf(records, c)) {
      assert ContextAgrees(contexts, c, Visits(records, c), TaskIdsOf(records, c));
      if r.context == Some(c) {
        VisitsCoverTaskIds(records, c);
        ContextSummarySnoc(Visits(records, c), Visit(r, true), TaskIdsOf(records, c), TaskIdsOf(records, c));
      } else {
        assert Visits(records, c) + [] == Visits(records, c);
      }
    }
  }

  lemma TaskStepAgrees(tasks: map<string, TaskAcc>, records: seq<EventRecord>, r: EventRecord)
    requires TasksAgree(tasks, records)
    ensures TasksAgree(TaskMapStep(tasks, r), records + [r])
    ensures BoundIn(TaskMapStep(tasks, r), r) == LastBound(records, r)
  {
    var tasks' := TaskMapStep(tasks, r);
    forall t
      ensures t in tasks' <==> Of(records + [r], t) != []
      ensures t in tasks' ==> tasks'[t] == TaskSummary(Of(records + [r], t))
    {
      OfSnoc(records, r, t);
      if r.task == Some(t) {
        TaskSummarySnoc(Of(records, t), r);
      } else {
        assert Of(records, t) + [] == Of(records, t);
      }
    }
  }

  lemma BoundStepAgrees(contexts: map<string, ContextAcc>, records: seq<EventRecord>, r: EventRecord)
    requires ContextsAgreeMidway(contexts, records, r)
    ensures ContextsAgree(BoundStep(contexts, LastBound(records, r), r), records + [r])
  {
    var bound := LastBound(records, r);
    var contexts' := BoundStep(contexts, bound, r);
    forall c ensures ContextAgrees(contexts', c, Visits(records + [r], c), TaskIdsOf(records + [r], c)) {
      assert ContextAgrees(contexts, c, NamedVisits(records, r, c), TaskIdsOf(records, c));
      VisitsSnoc(records, r, c);
      TaskIdsSnoc(records, r, c);
      assert EndsInTaskOf(records + [r], c) <==> bound == Some(c);
      if bound == Some(c) {
        VisitsCoverTaskIds(records, c);
        ContextSummarySnoc(NamedVisits(records, r, c), Visit(r, false), TaskIdsOf(records, c), TaskIdsOf(records + [r], c));
      } else {
        assert NamedVisits(records, r, c) + [] == NamedVisits(records, r, c);
        assert TaskIdsOf(records, c) + {} == TaskIdsOf(records, c);
      }
    }
  }

  /** Both maps after one record, as the replay computes them. */
  lemma RecordAgrees(contexts: map<string, ContextAcc>, tasks: map<string, TaskAcc>, seen: seq<EventRecord>, r: EventRecord)
    requires ContextsAgree(contexts, seen) && TasksAgree(tasks, seen)
    ensures TasksAgree(TaskMapStep(tasks, r), seen + [r])
    ensures ContextsAgree(BoundStep(NamedStep(contexts, r), BoundIn(TaskMapStep(tasks, r), r), r), seen + [r])
  {
    NamedStepAgrees(contexts, seen, r);
    TaskStepAgrees(tasks, seen, r);
    BoundStepAgrees(NamedStep(contexts, r), seen, r);
  }

  // ----- The replay -----

  class Replayer {
    var eventTypes: map<string, nat>
    var contexts: map<string, ContextAcc>
    var tasks: map<string, TaskAcc>

    constructor ()
      ensures Agrees([])
    {
      eventTypes, contexts, tasks := map[], map[], map[];
    }

    /** The three maps hold exactly the summaries of `records`. */
    ghost predicate Agrees(records: seq<EventRecord>)
      reads this
    {
      TypesAgree(eventTypes, records) && TasksAgree(tasks, records) && ContextsAgree(contexts, records)
    }

    method CountType(r: EventRecord, ghost records: seq<EventRecord>)
      requires TypesAgree(eventTypes, records)
      modifies this`eventTypes
      ensures TypesAgree(eventTypes, records + [r])
    {
      var e := r.eventType;
      eventTypes := eventTypes[e := (if e in eventTypes then eventTypes[e] else 0) + 1];
      forall e' ensures TypeCount(records + [r], e') == TypeCount(records, e') + if e' == e then 1 else 0 {
        FilterSnoc(records, r, (r: EventRecord) => OfType(r, e'));
      }
    }

    method ApplyContext(r: EventRecord)
      modifies this`contexts
      ensures contexts == NamedStep(old(contexts), r)
    {
      if r.context.None? { return; }
      var c := r.context.value;
      var context := if c in contexts then contexts[c] else NewContext(r);
      context := context.Observe(r);
      if context.agent.None? { context := context.(agent := r.agent); }
      var state := ContextStateIn(r);
      if state.Some? { context := context.(state := state); }
      var name := ContextNameIn(r);
      if name.Some? { context := context.(name := name); }
      contexts := contexts[c := context];
    }

    method ApplyTask(r: EventRecord)
      modifies this`contexts, this`tasks
      ensures tasks == TaskMapStep(old(tasks), r)
      ensures contexts == BoundStep(old(contexts), BoundIn(tasks, r), r)
    {
      if r.task.None? { return; }
      var t := r.task.value;
      var task := UpdateTask(if t in tasks then tasks[t] else NewTask(r), r);
      tasks := tasks[t := task];
      if task.context.Some? {
        var c := task.context.value;
        var context := if c in contexts then contexts[c] else NewContext(r);
        context := context.Observe(r);
        context := context.(taskIds := context.taskIds + {t});
        if context.agent.None? { context := context.(agent := r.agent); }
        contexts := contexts[c := context];
      }
    }

    static method UpdateTask(start: TaskAcc, r: EventRecord) returns (task: TaskAcc)
      ensures task == TaskStep(start, r)
    {
      task := start.Observe(r);
      if task.agent.None? { task := task.(agent := r.agent); }
      if task.context.None? { task := task.(context := ContextHint(r)); }
      var state := TaskStateIn(r);
      if state.Some? { task := task.(state := state); }
    }

    method ApplyRecord(r: EventRecord, ghost seen: seq<EventRecord>)
      requires Agrees(seen)
      modifies this
      ensures Agrees(seen + [r])
    {
      RecordAgrees(contexts, tasks, seen, r);
      CountType(r, seen);
      ApplyContext(r);
      ApplyTask(r);
    }

    /** Replay is the declarative summary of the journal, key by key. */
    method ReplayRecords(records: seq<EventRecord>)
      requires Agrees([])
      modifies this
      ensures Agrees(records)
    {
      for i := 0 to |records|
        invariant Agrees(records[..i])
      {
        assert records[..i + 1] == records[..i] + [records[i]];
        ApplyRecord(records[i], records[..i]);
      }
      assert records[..|records|] == records;
    }
  }

  // ----- Consequences -----

  /** A task is listed under a context exactly when it is bound to it, so the lists are disjoint. */
  lemma TaskListsFollowBindings(contexts: map<string, ContextAcc>, tasks: map<string, TaskAcc>, records: seq<EventRecord>, c: string, t: string)
    requires ContextsAgree(contexts, records) && TasksAgree(tasks, records) && c in contexts
    ensures t in contexts[c].taskIds <==> t in tasks && tasks[t].context == Some(c)
    ensures forall c' :: c' in contexts && c' != c ==> contexts[c].taskIds !! contexts[c'].taskIds
  {
    assert ContextAgrees(contexts, c, Visits(records, c), TaskIdsOf(records, c));
    if t in tasks && tasks[t].context == Some(c) {
      BoundMeansRecorded(records, t);
    }
    if t in TaskIdsOf(records, c) {
      var q :| q in records && q.task == Some(t) && BoundContext(records, t) == Some(c);
      FilterMembers(records, (r: EventRecord) => OfTask(r, t));
      assert OfTask(q, t) && q in Of(records, t);
    }
    forall c' | c' in contexts && c' != c ensures contexts[c].taskIds !! contexts[c'].taskIds {
      assert ContextAgrees(contexts, c', Visits(records, c'), TaskIdsOf(records, c'));
    }
  }

  /** Every bound task's context is summarized. */
  lemma BoundContextsAreListed(records: seq<EventRecord>, t: string)
    requires BoundContext(records, t).Some?
    ensures Visits(records, BoundContext(records, t).value) != []
  {
    var c := BoundContext(records, t).value;
    BoundMeansRecorded(records, t);
    var q :| q in records && q.task == Some(t);
    assert t in TaskIdsOf(records, c);
    VisitsCoverTaskIds(records, c);
  }

  // ----- Conservation -----

  /** Records that name a context. */
  function NamingCount(records: seq<EventRecord>): nat {
    |Filter(records, (r: EventRecord) => r.context.Some?)|
  }

  /** Records whose task is bound once they are applied. */
  function BoundCount(records: seq<EventRecord>): nat {
    if records == [] then 0
    else
      var last := records[|records| - 1];
      BoundCount(records[..|records| - 1])
      + if last.task.Some? && BoundContext(records, last.task.value).Some? then 1 else 0
  }

  /** One context's event count, split by how the records reached it. */
  lemma {:induction false} EventCountSplits(records: seq<EventRecord>, c: string)
    ensures |Visits(records, c)| ==
            |Filter(records, (r: EventRecord) => r.context == Some(c))| + BoundTo(records, c)
  {
    if records != [] { EventCountSplits(records[..|records| - 1], c); }
  }

  /** Records whose task is bound to `c` once they are applied. */
  function BoundTo(records: seq<EventRecord>, c: string): nat {
    if records == [] then 0
    else BoundTo(records[..|records| - 1], c) + if EndsInTaskOf(records, c) then 1 else 0
  }

  ghost function SumCounts(counts: map<string, nat>): nat
    decreases |counts|
  {
    if counts == map[] then 0
    else
      var k :| k in counts;
      counts[k] + SumCounts(counts - {k})
  }

  lemma {:induction false} SumRemove(counts: map<string, nat>, k: string)
    requires k in counts
    ensures SumCounts(counts) == counts[k] + SumCounts(counts - {k})
    decreases |counts|
  {
    var j :| j in counts && SumCounts(counts) == counts[j] + SumCounts(counts - {j});
    if j != k {
      SumRemove(counts - {j}, k);
      SumRemove(counts - {k}, j);
      assert counts - {j} - {k} == counts - {k} - {j};
    }
  }

  lemma SumUpdate(counts: map<string, nat>, k: string, n: nat)
    ensures SumCounts(counts[k := n]) == SumCounts(counts) - (if k in counts then counts[k] else 0) + n
  {
    SumRemove(counts[k := n], k);
    assert counts[k := n] - {k} == counts - {k};
    if k in counts { SumRemove(counts, k); } else { assert counts - {k} == counts; }
  }

  function Counts(contexts: map<string, ContextAcc>): map<string, nat> {
    map c | c in contexts :: contexts[c].eventCount
  }

  lemma VisitAddsOne(contexts: map<string, ContextAcc>, c: string, v: Visit)
    ensures SumCounts(Counts(Visited(contexts, c, v))) == SumCounts(Counts(contexts)) + 1
  {
    var n := if c in contexts then contexts[c].eventCount else 0;
    assert Counts(Visited(contexts, c, v)) == Counts(contexts)[c := n + 1];
    SumUpdate(Counts(contexts), c, n + 1);
  }

  /** Replay on values: what `ReplayRecords` leaves in the context map. */
  function ContextsAfter(records: seq<EventRecord>): map<string, ContextAcc> {
    if records == [] then map[]
    else
      var init, last := records[..|records| - 1], records[|records| - 1];
      BoundStep(NamedStep(ContextsAfter(init), last), LastBound(init, last), last)
  }

  lemma {:induction false} ContextsAfterAgree(records: seq<EventRecord>)
    ensures ContextsAgree(ContextsAfter(records), records)
  {
    if records != [] {
      var init, last := records[..|records| - 1], records[|records| - 1];
      SplitLast(records);
      ContextsAfterAgree(init);
      NamedStepAgrees(ContextsAfter(init), init, last);
      BoundStepAgrees(NamedStep(ContextsAfter(init), last), init, last);
    }
  }

  lemma AgreementIsUnique(contexts: map<string, ContextAcc>, contexts': map<string, ContextAcc>, records: seq<EventRecord>)
    requires ContextsAgree(contexts, records) && ContextsAgree(contexts', records)
    ensures contexts == contexts'
  {
    forall c
      ensures c in contexts <==> c in contexts'
      ensures c in contexts ==> contexts[c] == contexts'[c]
    {
      assert ContextAgrees(contexts, c, Visits(records, c), TaskIdsOf(records, c));
      assert ContextAgrees(contexts', c, Visits(records, c), TaskIdsOf(records, c));
    }
  }

  lemma {:induction false} CountsAreConservedAfter(records: seq<EventRecord>)
    ensures SumCounts(Counts(ContextsAfter(records))) == NamingCount(records) + BoundCount(records)
  {
    if records == [] {
      assert Counts(map[]) == map[];
    } else {
      var init, last := records[..|records| - 1], records[|records| - 1];
      SplitLast(records);
      CountsAreConservedAfter(init);
      var before := ContextsAfter(init);
      if last.context.Some? { VisitAddsOne(before, last.context.value, Visit(last, true)); }
      var bound := LastBound(init, last);
      if bound.Some? { VisitAddsOne(NamedStep(before, last), bound.value, Visit(last, false)); }
    }
  }

  /** Over all contexts, the event counts add up to the records naming a context plus the records of
      bound tasks; a record that is both is counted twice. */
  lemma EventCountsAreConserved(contexts: map<string, ContextAcc>, records: seq<EventRecord>)
    requires ContextsAgree(contexts, records)
    ensures SumCounts(Counts(contexts)) == NamingCount(records) + BoundCount(records)
    ensures forall c :: c in contexts ==>
              contexts[c].eventCount == |Filter(records, (r: EventRecord) => r.context == Some(c))| + BoundTo(records, c)
  {
    ContextsAfterAgree(records);
    AgreementIsUnique(contexts, ContextsAfter(records), records);
    CountsAreConservedAfter(records);
    forall c | c in contexts
      ensures contexts[c].eventCount == |Filter(records, (r: EventRecord) => r.context == Some(c))| + BoundTo(records, c)
    {
      assert ContextAgrees(contexts, c, Visits(records, c), TaskIdsOf(records, c));
      EventCountSplits(records, c);
    }
  }
}

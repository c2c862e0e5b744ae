/** The file-drop handoff: claim, archive and publish by atomic renames between four directories. */
module FileDrop {
  import opened Common
  import opened Text

  const UNIQUE_ATTEMPTS: nat := 10_000

  datatype Dir = Inbox | Processed | ErrorDir | Outbox

  datatype Path = Path(dir: Dir, name: string)

  /** A request carries the identity of its arrival; a report names the request it answers; an interrupted
      write leaves a partial report. */
  datatype Content = Request(id: nat, text: string) | Report(id: nat, ok: bool, archived: string) | Partial

  type Files = map<Path, Content>

  function NamesIn(files: Files, dir: Dir): set<string> {
    set p | p in files && p.dir == dir :: p.name
  }

  function Rename(files: Files, from: Path, to: Path): Files
    requires from in files
  {
    (files - {from})[to := files[from]]
  }

  // ----- Names -----

  predicate Contains(s: string, part: string) {
    part <= s || (s != [] && Contains(s[1..], part))
  }

  predicate IsReadyFileName(name: string) {
    && name != [] && name[0] != '.' && name[|name| - 1] != '~'
    && !Contains(name, ".processing")
    && NameParts(name).1 == Some("json")
  }

  predicate AllTaken(taken: set<string>, desired: string, n: nat, k: nat) {
    forall j :: n <= j < k ==> Candidate(desired, j) in taken
  }

  /** First candidate not taken, from the n-th on. */
  function FreeFrom(taken: set<string>, desired: string, n: nat): (r: Option<string>)
    requires n <= UNIQUE_ATTEMPTS + 1
    ensures r.Some? ==> r.value !in taken
    ensures r.Some? ==> exists k :: n <= k <= UNIQUE_ATTEMPTS && r.value == Candidate(desired, k) && AllTaken(taken, desired, n, k)
    ensures r.None? <==> forall k :: n <= k <= UNIQUE_ATTEMPTS ==> Candidate(desired, k) in taken
    decreases UNIQUE_ATTEMPTS + 1 - n
  {
    if n > UNIQUE_ATTEMPTS then None
    else if Candidate(desired, n) !in taken then Some(Candidate(desired, n))
    else FreeFrom(taken, desired, n + 1)
  }

  function FreeName(taken: set<string>, desired: string): Option<string> {
    FreeFrom(taken, desired, 0)
  }

  method UniquePath(files: Files, dir: Dir, desired: string) returns (r: Option<string>)
    ensures r == FreeName(NamesIn(files, dir), desired)
  {
    if Path(dir, desired) !in files { return Some(desired); }
    var index := 1;
    while index <= UNIQUE_ATTEMPTS
      invariant 1 <= index <= UNIQUE_ATTEMPTS + 1
      invariant FreeName(NamesIn(files, dir), desired) == FreeFrom(NamesIn(files, dir), desired, index)
    {
      var name := Numbered(desired, index);
      if Path(dir, name) !in files { return Some(name); }
      assert Path(dir, name).name in NamesIn(files, dir);
      index := index + 1;
    }
    return None;
  }

  /** The search gives up only in a directory of more than 10,000 files. */
  lemma NoFreeNameMeansFull(taken: set<string>, desired: string)
    requires FreeName(taken, desired).None?
    ensures |taken| > UNIQUE_ATTEMPTS
  {
    CandidatesFill(desired, 0, UNIQUE_ATTEMPTS + 1, taken);
  }

  function ClaimName(name: string, suffix: string): string {
    "." + name + ".processing-" + suffix
  }

  function OutputName(name: string, ok: bool): string {
    NameParts(name).0 + (if ok then ".result" else ".error") + ".json"
  }

  function TempName(output: string, suffix: string): string {
    "." + output + ".tmp-" + suffix
  }

  lemma JsonName(stem: string, n: nat)
    requires stem != ""
    ensures NameParts(stem + ".json") == (stem, Some("json"))
    ensures Numbered(stem + ".json", n) == stem + "-" + Decimal(n) + ".json"
  {
    NameWithExtension(stem, "json", n);
    assert stem + "." + "json" == stem + ".json";
    assert stem + "-" + Decimal(n) + "." + "json" == stem + "-" + Decimal(n) + ".json";
  }

  /** The report on "stem.json" goes to "stem.result.json" or "stem.error.json", numbered before the extension. */
  lemma OutputNames(stem: string, ok: bool, n: nat)
    requires stem != ""
    ensures OutputName(stem + ".json", ok) == stem + (if ok then ".result" else ".error") + ".json"
    ensures Numbered(OutputName(stem + ".json", ok), n) == stem + (if ok then ".result" else ".error") + "-" + Decimal(n) + ".json"
  {
    JsonName(stem, n);
    JsonName(stem + (if ok then ".result" else ".error"), n);
  }

  /** A text contains another when it is found at some position. */
  lemma {:induction false} ContainsMeaning(s: string, part: string)
    ensures Contains(s, part) <==> exists before, after :: s == before + part + after
  {
    if part <= s {
      assert s == "" + part + s[|part|..];
    } else if Contains(s, part) {
      ContainsMeaning(s[1..], part);
      var before, after :| s[1..] == before + part + after;
      assert s == ([s[0]] + before) + part + after;
    }
    if before, after :| s == before + part + after {
      ContainsPart(before, part, after);
    }
  }

  lemma {:induction false} ContainsPart(before: string, part: string, after: string)
    ensures Contains(before + part + after, part)
  {
    if before == "" {
      assert before + part + after == part + after;
    } else {
      ContainsPart(before[1..], part, after);
      assert (before + part + after)[1..] == before[1..] + part + after;
    }
  }

  /** A ready name is a stem, not starting with a dot, and ".json"; files in progress are not ready. */
  lemma ReadyNamesExactly(name: string)
    ensures IsReadyFileName(name) <==>
              exists stem :: stem != "" && stem[0] != '.' && name == stem + ".json" && !Contains(name, ".processing")
  {
    if IsReadyFileName(name) {
      var stem := JsonStem(name);
    }
    if stem :| stem != "" && stem[0] != '.' && name == stem + ".json" && !Contains(name, ".processing") {
      JsonName(stem, 0);
      EndsInLetter(stem);
    }
  }

  lemma JsonStem(name: string) returns (stem: string)
    requires NameParts(name).1 == Some("json")
    ensures stem != "" && stem[0] == name[0] && name == stem + ".json"
  {
    var i := LastIndexOf(name, '.');
    stem := name[..i];
    assert name == stem + (['.'] + name[i + 1..]);
    assert ['.'] + "json" == ".json";
  }

  lemma EndsInLetter(stem: string)
    ensures var name := stem + ".json"; name[|name| - 1] == 'n'
  {
    assert ".json"[4] == 'n';
  }

  lemma ReadyStem(name: string) returns (stem: string)
    requires IsReadyFileName(name)
    ensures stem != "" && stem[0] != '.' && name == stem + ".json"
  {
    ReadyNamesExactly(name);
    stem :| stem != "" && stem[0] != '.' && name == stem + ".json";
  }

  /** No claim or temporary name, however numbered, is ready; nor are they names of outputs. */
  lemma HiddenNamesAreNotReady(name: string, suffix: string, n: nat)
    ensures Candidate(ClaimName(name, suffix), n) != "" && Candidate(ClaimName(name, suffix), n)[0] == '.'
    ensures Candidate(TempName(name, suffix), n) != "" && Candidate(TempName(name, suffix), n)[0] == '.'
    ensures !IsReadyFileName(Candidate(ClaimName(name, suffix), n)) && !IsReadyFileName(Candidate(TempName(name, suffix), n))
  {
    CandidateKeepsStart(ClaimName(name, suffix), n);
    CandidateKeepsStart(TempName(name, suffix), n);
  }

  /** A claim shows the file it is of and that it is in progress; claims and temporary files of different files or
      suffixes have different names. */
  lemma HiddenNames(name: string, suffix: string, suffix': string)
    ensures Contains(ClaimName(name, suffix), ".processing")
    ensures |ClaimName(name, suffix)| == |name| + |suffix| + 13 && ClaimName(name, suffix)[1..|name| + 1] == name
    ensures |TempName(name, suffix)| == |name| + |suffix| + 6 && TempName(name, suffix)[1..|name| + 1] == name
    ensures suffix != suffix' ==> ClaimName(name, suffix) != ClaimName(name, suffix') && TempName(name, suffix) != TempName(name, suffix')
  {
    ContainsPart("." + name, ".processing", "-" + suffix);
    assert ClaimName(name, suffix) == "." + name + ".processing" + ("-" + suffix);
    assert forall s: string :: ClaimName(name, s)[|name| + 13..] == s && TempName(name, s)[|name| + 6..] == s;
  }

  lemma CandidateKeepsStart(name: string, n: nat)
    requires name != ""
    ensures Candidate(name, n) != "" && Candidate(name, n)[0] == name[0]
  {
  }

  lemma CandidateIsNoShorter(name: string, n: nat)
    ensures |Candidate(name, n)| >= |name|
  {
    if n > 0 { NumberedIsLonger(name, n); }
  }

  /** A temporary name is longer than the name it stands for, however it is numbered. */
  lemma TempIsNotOutput(output: string, suffix: string, taken: set<string>)
    ensures FreeName(taken, TempName(output, suffix)) != Some(output)
  {
    var r := FreeName(taken, TempName(output, suffix));
    if r.Some? {
      var k :| 0 <= k <= UNIQUE_ATTEMPTS && r.value == Candidate(TempName(output, suffix), k);
      CandidateIsNoShorter(TempName(output, suffix), k);
    }
  }

  // ----- The protocol, one file-system step at a time -----

  datatype Phase =
    | Idle
    | Claimed(name: string, claim: string, id: nat)
    | OutputChosen(name: string, claim: string, id: nat, output: string, ok: bool)
    | Archived(id: nat, output: string, ok: bool, archived: string)
    | TempWritten(id: nat, output: string, temp: string)

  /** `arrived` and `published` record the history: the ids dropped so far and the reports made public. */
  datatype System = System(files: Files, phase: Phase, arrived: set<nat>, published: seq<(nat, string)>)

  datatype Action =
    | Arrive(arriving: string, id: nat, text: string)
    | Claim(source: string, suffix: string)
    | ChooseOutput(ok: bool)
    | Archive
    | WriteTemp(tempSuffix: string)
    | WritePartial(partialSuffix: string)
    | Publish
    | AbandonTemp
    | Stop
    | Collect(collected: string)

  /** What an action does; `None` when it cannot happen, which includes a failed name search. */
  function Do(s: System, a: Action): Option<System> {
    match a
    case Arrive(name, id, text) =>
      if Path(Inbox, name) in s.files || id in s.arrived then None
      else Some(s.(files := s.files[Path(Inbox, name) := Request(id, text)], arrived := s.arrived + {id}))
    case Claim(name, suffix) =>
      var source := Path(Inbox, name);
      if !s.phase.Idle? || !IsReadyFileName(name) || source !in s.files || !s.files[source].Request? then None
      else
        var free := FreeName(NamesIn(s.files, Processed), ClaimName(name, suffix));
        if free.None? then None
        else Some(s.(files := Rename(s.files, source, Path(Processed, free.value)),
                     phase := Claimed(name, free.value, s.files[source].id)))
    case ChooseOutput(ok) =>
      if !s.phase.Claimed? then None
      else
        var free := FreeName(NamesIn(s.files, Outbox), OutputName(s.phase.name, ok));
        if free.None? then None
        else Some(s.(phase := OutputChosen(s.phase.name, s.phase.claim, s.phase.id, free.value, ok)))
    case Archive =>
      if !s.phase.OutputChosen? || Path(Processed, s.phase.claim) !in s.files then None
      else
        var dir := if s.phase.ok then Processed else ErrorDir;
        var free := FreeName(NamesIn(s.files, dir), s.phase.name);
        if free.None? then None
        else Some(s.(files := Rename(s.files, Path(Processed, s.phase.claim), Path(dir, free.value)),
                     phase := Archived(s.phase.id, s.phase.output, s.phase.ok, free.value)))
    case WriteTemp(suffix) =>
      if !s.phase.Archived? then None
      else
        var free := FreeName(NamesIn(s.files, Outbox), TempName(s.phase.output, suffix));
        if free.None? then None
        else Some(s.(files := s.files[Path(Outbox, free.value) := Report(s.phase.id, s.phase.ok, s.phase.archived)],
                     phase := TempWritten(s.phase.id, s.phase.output, free.value)))
    case WritePartial(suffix) =>
      if !s.phase.Archived? then None
      else
        var free := FreeName(NamesIn(s.files, Outbox), TempName(s.phase.output, suffix));
        if free.None? then None
        else Some(s.(files := s.files[Path(Outbox, free.value) := Partial], phase := Idle))
    case Publish =>
      if !s.phase.TempWritten? || Path(Outbox, s.phase.temp) !in s.files then None
      else Some(s.(files := Rename(s.files, Path(Outbox, s.phase.temp), Path(Outbox, s.phase.output)),
                   phase := Idle, published := s.published + [(s.phase.id, s.phase.output)]))
    case AbandonTemp =>
      if !s.phase.TempWritten? then None
      else Some(s.(files := s.files - {Path(Outbox, s.phase.temp)}, phase := Idle))
    case Stop => Some(s.(phase := Idle))
    case Collect(name) =>
      if s.phase.TempWritten? && name == s.phase.temp then None
      else Some(s.(files := s.files - {Path(Outbox, name)}))
  }

  // ----- What every step keeps -----

  predicate Holds(files: Files, p: Path, id: nat) {
    p in files && files[p].Request? && files[p].id == id
  }

  /** Each arrived request is in exactly one place, never the outbox; reports are nowhere else. */
  ghost predicate Conserved(s: System) {
    && (forall id :: id in s.arrived ==> exists p :: Holds(s.files, p, id))
    && (forall p, q, id :: Holds(s.files, p, id) && Holds(s.files, q, id) ==> p == q)
    && (forall p, id :: Holds(s.files, p, id) ==> id in s.arrived && p.dir != Outbox)
    && (forall p :: p in s.files && !s.files[p].Request? ==> p.dir == Outbox)
  }

  /** The worker's bookkeeping matches the directories, and its chosen output name stays free. */
  ghost predicate WorkerOk(s: System) {
    match s.phase
    case Idle => true
    case Claimed(_, claim, id) => Holds(s.files, Path(Processed, claim), id)
    case OutputChosen(_, claim, id, output, _) =>
      Holds(s.files, Path(Processed, claim), id) && Path(Outbox, output) !in s.files
    case Archived(id, output, ok, archived) =>
      Holds(s.files, Path(if ok then Processed else ErrorDir, archived), id) && Path(Outbox, output) !in s.files
    case TempWritten(id, output, temp) =>
      && output != temp && Path(Outbox, output) !in s.files
      && Path(Outbox, temp) in s.files && s.files[Path(Outbox, temp)].Report? && s.files[Path(Outbox, temp)].id == id
  }

  /** Requests that have left the worker's hands for good: archived, or stuck in a claim. */
  ghost predicate OutOfInbox(s: System, id: nat) {
    id in s.arrived && forall p :: Holds(s.files, p, id) ==> p.dir != Inbox
  }

  /** No request is reported twice, and a reported request is archived and not in progress. */
  ghost predicate ReportsOk(s: System) {
    && (forall i, j :: 0 <= i < j < |s.published| ==> s.published[i].0 != s.published[j].0)
    && (forall i :: 0 <= i < |s.published| ==> OutOfInbox(s, s.published[i].0) && !InHand(s.phase, s.published[i].0))
    && (!s.phase.Idle? ==> OutOfInbox(s, s.phase.id))
  }

  predicate InHand(phase: Phase, id: nat) {
    !phase.Idle? && phase.id == id
  }

  ghost predicate Inv(s: System) {
    Conserved(s) && WorkerOk(s) && ReportsOk(s)
  }

  const START := System(map[], Idle, {}, [])

  lemma StartIsSound()
    ensures Inv(START)
  {
  }

  lemma RenameMoves(files: Files, from: Path, to: Path)
    requires from in files && to !in files
    ensures forall p, id :: Holds(Rename(files, from, to), p, id) <==>
              if p == to then Holds(files, from, id) else p != from && Holds(files, p, id)
  {
  }

  lemma FreeIsFree(files: Files, dir: Dir, desired: string)
    ensures var r := FreeName(NamesIn(files, dir), desired);
            r.Some? ==> Path(dir, r.value) !in files
  {
    var r := FreeName(NamesIn(files, dir), desired);
    assert forall name :: Path(dir, name) in files ==> Path(dir, name).name in NamesIn(files, dir);
  }

  /** A rename to a free name outside the outbox conserves the requests. */
  lemma RenameConserves(s: System, s': System, from: Path, to: Path)
    requires Conserved(s) && from in s.files && to !in s.files && from.dir != Outbox && to.dir != Outbox
    requires s'.files == Rename(s.files, from, to) && s'.arrived == s.arrived
    ensures Conserved(s')
    ensures to.dir != Inbox ==> forall id :: OutOfInbox(s, id) ==> OutOfInbox(s', id)
    ensures to.dir != Inbox ==> forall id :: Holds(s.files, from, id) ==> OutOfInbox(s', id)
  {
    RenameMoves(s.files, from, to);
    forall id | id in s'.arrived ensures exists p :: Holds(s'.files, p, id) {
      var p :| Holds(s.files, p, id);
      if p == from { assert Holds(s'.files, to, id); } else { assert Holds(s'.files, p, id); }
    }
  }

  /** Only the outbox changes, and only by reports. */
  lemma OutboxChangeConserves(s: System, s': System)
    requires Conserved(s) && s'.arrived == s.arrived
    requires forall p, id :: Holds(s'.files, p, id) <==> Holds(s.files, p, id)
    requires forall p :: p in s'.files && !s'.files[p].Request? ==> p.dir == Outbox
    ensures Conserved(s')
    ensures forall id :: OutOfInbox(s, id) ==> OutOfInbox(s', id)
  {
    forall id | id in s'.arrived ensures exists p :: Holds(s'.files, p, id) {
      var p :| Holds(s.files, p, id);
      assert Holds(s'.files, p, id);
    }
  }

  lemma ArriveKeeps(s: System, a: Action)
    requires Inv(s) && a.Arrive? && Do(s, a).Some?
    ensures Inv(Do(s, a).value)
  {
    var s' := Do(s, a).value;
    var at := Path(Inbox, a.arriving);
    assert forall p, id :: Holds(s'.files, p, id) <==> if p == at then id == a.id else Holds(s.files, p, id);
    forall id | id in s'.arrived ensures exists p :: Holds(s'.files, p, id) {
      if id == a.id { assert Holds(s'.files, at, id); } else {
        var p :| Holds(s.files, p, id);
        assert Holds(s'.files, p, id);
      }
    }
    assert forall id :: OutOfInbox(s, id) ==> OutOfInbox(s', id);
  }

  lemma ClaimKeeps(s: System, a: Action)
    requires Inv(s) && a.Claim? && Do(s, a).Some?
    ensures Inv(Do(s, a).value)
  {
    var s' := Do(s, a).value;
    var from, to := Path(Inbox, a.source), Path(Processed, s'.phase.claim);
    FreeIsFree(s.files, Processed, ClaimName(a.source, a.suffix));
    RenameConserves(s, s', from, to);
    assert Holds(s.files, from, s'.phase.id);
    assert Holds(s'.files, to, s'.phase.id);
    forall i | 0 <= i < |s.published| ensures s.published[i].0 != s'.phase.id {
      assert OutOfInbox(s, s.published[i].0);
    }
  }

  lemma ChooseKeeps(s: System, a: Action)
    requires Inv(s) && a.ChooseOutput? && Do(s, a).Some?
    ensures Inv(Do(s, a).value)
  {
    var s' := Do(s, a).value;
    FreeIsFree(s.files, Outbox, OutputName(s.phase.name, a.ok));
    OutboxChangeConserves(s, s');
  }

  lemma ArchiveKeeps(s: System, a: Action)
    requires Inv(s) && a.Archive? && Do(s, a).Some?
    ensures Inv(Do(s, a).value)
  {
    var s' := Do(s, a).value;
    var dir := if s.phase.ok then Processed else ErrorDir;
    var from, to := Path(Processed, s.phase.claim), Path(dir, s'.phase.archived);
    FreeIsFree(s.files, dir, s.phase.name);
    assert s'.files == Rename(s.files, from, to);
    RenameConserves(s, s', from, to);
    assert Holds(s'.files, to, s.phase.id);
    assert Path(Outbox, s.phase.output) !in s'.files;
    assert Conserved(s') && WorkerOk(s');
    ArchiveReports(s, s');
  }

  lemma ArchiveReports(s: System, s': System)
    requires ReportsOk(s) && s.phase.OutputChosen? && s'.phase.Archived? && s'.phase.id == s.phase.id && s'.published == s.published
    requires forall id :: OutOfInbox(s, id) ==> OutOfInbox(s', id)
    ensures ReportsOk(s')
  {
  }

  lemma WritePartialKeeps(s: System, a: Action)
    requires Inv(s) && a.WritePartial? && Do(s, a).Some?
    ensures Inv(Do(s, a).value)
  {
    FreeIsFree(s.files, Outbox, TempName(s.phase.output, a.partialSuffix));
    OutboxChangeConserves(s, Do(s, a).value);
  }

  lemma WriteTempKeeps(s: System, a: Action)
    requires Inv(s) && a.WriteTemp? && Do(s, a).Some?
    ensures Inv(Do(s, a).value)
  {
    var s' := Do(s, a).value;
    FreeIsFree(s.files, Outbox, TempName(s.phase.output, a.tempSuffix));
    TempIsNotOutput(s.phase.output, a.tempSuffix, NamesIn(s.files, Outbox));
    OutboxChangeConserves(s, s');
  }

  lemma PublishKeeps(s: System, a: Action)
    requires Inv(s) && a.Publish? && Do(s, a).Some?
    ensures Inv(Do(s, a).value)
  {
    var s' := Do(s, a).value;
    RenameMoves(s.files, Path(Outbox, s.phase.temp), Path(Outbox, s.phase.output));
    OutboxChangeConserves(s, s');
  }

  lemma RemovalKeeps(s: System, a: Action)
    requires Inv(s) && (a.AbandonTemp? || a.Stop? || a.Collect?) && Do(s, a).Some?
    ensures Inv(Do(s, a).value)
  {
    OutboxChangeConserves(s, Do(s, a).value);
  }

  lemma EveryActionKeepsInv(s: System, a: Action)
    requires Inv(s) && Do(s, a).Some?
    ensures Inv(Do(s, a).value)
  {
    match a
    case Arrive(_, _, _) => ArriveKeeps(s, a);
    case Claim(_, _) => ClaimKeeps(s, a);
    case ChooseOutput(_) => ChooseKeeps(s, a);
    case Archive => ArchiveKeeps(s, a);
    case WriteTemp(_) => WriteTempKeeps(s, a);
    case WritePartial(_) => WritePartialKeeps(s, a);
    case Publish => PublishKeeps(s, a);
    case AbandonTemp => RemovalKeeps(s, a);
    case Stop => RemovalKeeps(s, a);
    case Collect(_) => RemovalKeeps(s, a);
  }

  /** Every prefix of actions that can happen, the worker being stopped or restarted anywhere. */
  function Run(actions: seq<Action>): Option<System> {
    if actions == [] then Some(START)
    else
      var before := Run(actions[..|actions| - 1]);
      if before.None? then None else Do(before.value, actions[|actions| - 1])
  }

  lemma {:induction false} RunsConserveRequests(actions: seq<Action>)
    requires Run(actions).Some?
    ensures Inv(Run(actions).value)
  {
    if actions == [] {
      StartIsSound();
    } else {
      var init := actions[..|actions| - 1];
      RunsConserveRequests(init);
      EveryActionKeepsInv(Run(init).value, actions[|actions| - 1]);
    }
  }

  /** Spelled out: on every run each request that arrived is in exactly one file, in the inbox, the processed or
      the error directory; the outbox holds only reports; no request is reported twice, nor while it is in the inbox. */
  lemma RequestsOnEveryRun(actions: seq<Action>)
    requires Run(actions).Some?
    ensures var s := Run(actions).value;
            && (forall id :: id in s.arrived ==>
                  exists p :: p in s.files && s.files[p].Request? && s.files[p].id == id && p.dir != Outbox
                              && forall q :: q in s.files && s.files[q].Request? && s.files[q].id == id ==> q == p)
            && (forall p :: p in s.files ==> (s.files[p].Request? <==> p.dir != Outbox))
            && (forall p :: p in s.files && s.files[p].Request? ==> s.files[p].id in s.arrived)
            && (forall i, j :: 0 <= i < j < |s.published| ==> s.published[i].0 != s.published[j].0)
            && (forall i, p :: 0 <= i < |s.published| && p in s.files && p.dir == Inbox ==> s.files[p].id != s.published[i].0)
  {
    RunsConserveRequests(actions);
    var s := Run(actions).value;
    forall id | id in s.arrived
      ensures exists p :: p in s.files && s.files[p].Request? && s.files[p].id == id && p.dir != Outbox
                          && forall q :: q in s.files && s.files[q].Request? && s.files[q].id == id ==> q == p
    {
      var p :| Holds(s.files, p, id);
      assert forall q :: q in s.files && s.files[q].Request? && s.files[q].id == id ==> Holds(s.files, q, id);
    }
    forall p | p in s.files && s.files[p].Request? ensures s.files[p].id in s.arrived && p.dir != Outbox {
      assert Holds(s.files, p, s.files[p].id);
    }
    forall i, p | 0 <= i < |s.published| && p in s.files && p.dir == Inbox ensures s.files[p].id != s.published[i].0 {
      assert OutOfInbox(s, s.published[i].0);
      assert s.files[p].Request?;
      assert Holds(s.files, p, s.files[p].id);
    }
  }

  /** The path an action writes by renaming or creating, if any. */
  function Target(s: System, a: Action): Option<Path> {
    var after := Do(s, a);
    if after.None? then None
    else
      match a
      case Arrive(name, _, _) => Some(Path(Inbox, name))
      case Claim(_, _) => Some(Path(Processed, after.value.phase.claim))
      case Archive => Some(Path(if s.phase.ok then Processed else ErrorDir, after.value.phase.archived))
      case WriteTemp(_) => Some(Path(Outbox, after.value.phase.temp))
      case WritePartial(suffix) =>
        var free := FreeName(NamesIn(s.files, Outbox), TempName(s.phase.output, suffix));
        if free.Some? then Some(Path(Outbox, free.value)) else None
      case Publish => Some(Path(Outbox, s.phase.output))
      case _ => None
  }

  /** No action on any run overwrites a file. */
  lemma NothingIsOverwritten(actions: seq<Action>, a: Action)
    requires Run(actions).Some? && Do(Run(actions).value, a).Some?
    ensures var s := Run(actions).value;
            var target := Target(s, a);
            && (target.Some? ==> target.value !in s.files)
            && forall p :: p in Do(s, a).value.files && (target.None? || p != target.value) ==>
                             p in s.files && Do(s, a).value.files[p] == s.files[p]
  {
    var s := Run(actions).value;
    RunsConserveRequests(actions);
    match a
    case Claim(name, suffix) => FreeIsFree(s.files, Processed, ClaimName(name, suffix));
    case Archive => FreeIsFree(s.files, if s.phase.ok then Processed else ErrorDir, s.phase.name);
    case WriteTemp(suffix) => FreeIsFree(s.files, Outbox, TempName(s.phase.output, suffix));
    case WritePartial(suffix) => FreeIsFree(s.files, Outbox, TempName(s.phase.output, suffix));
    case _ =>
  }

  /** No action alters or drops a request's content. */
  lemma StepKeepsContent(s: System, a: Action, p: Path)
    requires Inv(s) && Do(s, a).Some? && p in s.files && s.files[p].Request?
    ensures exists q :: q in Do(s, a).value.files && Do(s, a).value.files[q] == s.files[p]
  {
    var files' := Do(s, a).value.files;
    assert Holds(s.files, p, s.files[p].id) && p.dir != Outbox;
    match a
    case Claim(name, suffix) =>
      FreeIsFree(s.files, Processed, ClaimName(name, suffix));
      var q := if p == Path(Inbox, name) then Path(Processed, Do(s, a).value.phase.claim) else p;
      assert q in files' && files'[q] == s.files[p];
    case Archive =>
      var dir := if s.phase.ok then Processed else ErrorDir;
      FreeIsFree(s.files, dir, s.phase.name);
      var q := if p == Path(Processed, s.phase.claim) then Path(dir, Do(s, a).value.phase.archived) else p;
      assert q in files' && files'[q] == s.files[p];
    case _ =>
      assert p in files' && files'[p] == s.files[p];
  }

  /** On every run each request that ever arrived is, word for word, in exactly one file outside the outbox. */
  lemma {:induction false} ArrivalsKeepTheirText(actions: seq<Action>, i: nat)
    requires Run(actions).Some? && i < |actions| && actions[i].Arrive?
    ensures var files := Run(actions).value.files;
            exists p :: p in files && files[p] == Request(actions[i].id, actions[i].text) && p.dir != Outbox
                        && forall q :: Holds(files, q, actions[i].id) ==> q == p
  {
    var init, last := actions[..|actions| - 1], actions[|actions| - 1];
    var content := Request(actions[i].id, actions[i].text);
    var s, s' := Run(init).value, Run(actions).value;
    RunsConserveRequests(init);
    RunsConserveRequests(actions);
    var p: Path;
    if i == |init| {
      p := Path(Inbox, actions[i].arriving);
    } else {
      ArrivalsKeepTheirText(init, i);
      var before :| before in s.files && s.files[before] == content;
      StepKeepsContent(s, last, before);
      p :| p in s'.files && s'.files[p] == content;
    }
    assert Holds(s'.files, p, content.id);
  }

  /** An archived request stays where it is: no later action moves it. */
  lemma ArchivedStays(s: System, a: Action, p: Path, id: nat)
    requires Inv(s) && Do(s, a).Some? && Holds(s.files, p, id) && p.dir != Inbox
    requires !((s.phase.Claimed? || s.phase.OutputChosen?) && s.phase.id == id)
    ensures Holds(Do(s, a).value.files, p, id)
  {
    var s' := Do(s, a).value;
    match a
    case Archive =>
      var dir := if s.phase.ok then Processed else ErrorDir;
      FreeIsFree(s.files, dir, s.phase.name);
      RenameMoves(s.files, Path(Processed, s.phase.claim), Path(dir, s'.phase.archived));
      assert Holds(s.files, Path(Processed, s.phase.claim), s.phase.id);
    case Claim(name, suffix) =>
      FreeIsFree(s.files, Processed, ClaimName(name, suffix));
      RenameMoves(s.files, Path(Inbox, name), Path(Processed, s'.phase.claim));
    case _ =>
      assert p.dir != Outbox;
  }
}

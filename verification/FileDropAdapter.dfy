/** The file-drop adapter: the methods that take the protocol's steps, and the run loop around them. */
module FileDropAdapter {
  import opened Common
  import opened Text
  import opened FileDrop

  datatype FileDropError = NotReady | NoFreeName | IoFailure | BadLimit

  datatype ClaimTicket = ClaimTicket(originalName: string, claimName: string)

  /** Which operations on one file the operating system lets through; an interrupted write may leave a partial
      file, and the removal after a failed publication may fail too. */
  datatype Faults = Faults(
    claimOk: bool, readOk: bool, archiveOk: bool, writeOk: bool, leavesPartial: bool, publishOk: bool, removeOk: bool)
  {
    predicate AllClear() { claimOk && readOk && archiveOk && writeOk && publishOk }
  }

  datatype FileView = FileView(inputFile: string, ok: bool, outputFile: string, archivedFile: string)

  ghost predicate CanStep(s: System, s': System) {
    exists a :: Do(s, a) == Some(s')
  }

  /** Consecutive states are single protocol steps. */
  ghost predicate StepByStep(trace: seq<System>) {
    forall i :: 0 <= i < |trace| - 1 ==> CanStep(trace[i], trace[i + 1])
  }

  lemma {:induction false} TraceKeepsInv(trace: seq<System>)
    requires trace != [] && Inv(trace[0]) && StepByStep(trace)
    ensures forall i :: 0 <= i < |trace| ==> Inv(trace[i])
  {
    if |trace| > 1 {
      var init := trace[..|trace| - 1];
      forall i | 0 <= i < |init| - 1 ensures CanStep(init[i], init[i + 1]) { assert CanStep(trace[i], trace[i + 1]); }
      TraceKeepsInv(init);
      var n := |trace| - 2;
      assert CanStep(trace[n], trace[n + 1]);
      var a :| Do(trace[n], a) == Some(trace[n + 1]);
      assert Inv(init[n]);
      EveryActionKeepsInv(trace[n], a);
    }
  }

  function Insert(name: string, sorted: seq<string>): seq<string> {
    if sorted == [] then [name]
    else if LexLeq(name, sorted[0]) then [name] + sorted
    else [sorted[0]] + Insert(name, sorted[1..])
  }

  lemma StepsGrow(trace: seq<System>, a: Action, s: System)
    requires trace != [] && StepByStep(trace) && Do(trace[|trace| - 1], a) == Some(s)
    ensures StepByStep(trace + [s])
  {
    var longer := trace + [s];
    forall i | 0 <= i < |longer| - 1 ensures CanStep(longer[i], longer[i + 1]) {
      if i < |trace| - 1 {
        assert CanStep(trace[i], trace[i + 1]);
        assert longer[i] == trace[i] && longer[i + 1] == trace[i + 1];
      } else {
        assert Do(longer[i], a) == Some(longer[i + 1]);
      }
    }
  }

  predicate Sorted(names: seq<string>) {
    forall i, j :: 0 <= i < j < |names| ==> LexLeq(names[i], names[j]) && names[i] != names[j]
  }

  lemma {:induction false} InsertSorts(name: string, sorted: seq<string>)
    requires Sorted(sorted) && name !in sorted
    ensures Sorted(Insert(name, sorted))
    ensures forall n :: n in Insert(name, sorted) <==> n == name || n in sorted
  {
    if sorted != [] {
      SplitHead(sorted, []);
      if LexLeq(name, sorted[0]) {
        forall j | 0 <= j < |sorted| ensures LexLeq(name, sorted[j]) {
          if j > 0 { LexTransitive(name, sorted[0], sorted[j]); }
        }
      } else {
        LexTotal(name, sorted[0]);
        InsertSorts(name, sorted[1..]);
        var rest := Insert(name, sorted[1..]);
        forall j | 0 <= j < |rest| ensures LexLeq(sorted[0], rest[j]) && sorted[0] != rest[j] {
          assert rest[j] in rest;
          if rest[j] != name {
            var k :| 0 <= k < |sorted[1..]| && sorted[1..][k] == rest[j];
            assert sorted[k + 1] == rest[j];
          }
        }
      }
    }
  }

  /** The ready files, in name order. */
  ghost predicate IsReadyList(files: Files, names: seq<string>) {
    Sorted(names) && forall n :: n in names <==> Path(Inbox, n) in files && IsReadyFileName(n)
  }

  lemma FirstIsMember(names: seq<string>)
    ensures names != [] ==> names[0] in names
  {
  }

  /** There is one such list. */
  lemma {:induction false} SortedNamesAgree(names: seq<string>, others: seq<string>)
    requires Sorted(names) && Sorted(others) && forall n :: n in names <==> n in others
    ensures names == others
  {
    if names == [] {
      FirstIsMember(others);
    } else {
      assert names[0] in others && others[0] in names;
      var i :| 0 <= i < |others| && others[i] == names[0];
      var j :| 0 <= j < |names| && names[j] == others[0];
      if names[0] != others[0] {
        assert LexLeq(names[0], names[j]) && LexLeq(others[0], others[i]);
        LexAntisymmetric(names[0], others[0]);
      }
      SplitHead(names, []);
      SplitHead(others, []);
      forall n ensures n in names[1..] <==> n in others[1..] {
        assert n in names <==> n in others;
        assert n in names <==> n == names[0] || n in names[1..];
        assert n in others <==> n == others[0] || n in others[1..];
        assert names[0] !in names[1..] && others[0] !in others[1..];
      }
      SortedNamesAgree(names[1..], others[1..]);
    }
  }

  // ----- When a file can be processed -----

  function Suffix(pid: nat, counter: nat): string {
    Decimal(pid) + "-" + Decimal(counter)
  }

  /** Different counters, and different processes, never share a suffix. */
  lemma SuffixesDiffer(pid: nat, counter: nat, pid': nat, counter': nat)
    requires Suffix(pid, counter) == Suffix(pid', counter')
    ensures pid == pid' && counter == counter'
  {
    SplitAtHyphen(Decimal(pid), Decimal(counter), Decimal(pid'), Decimal(counter'));
    DecimalInjective(pid, pid');
    DecimalInjective(counter, counter');
  }

  lemma SplitAtHyphen(a: string, b: string, a': string, b': string)
    requires AllDigits(a) && AllDigits(a') && a + "-" + b == a' + "-" + b'
    ensures a == a' && b == b'
  {
    var s := a + "-" + b;
    assert s[|a|] == '-' && s[|a'|] == '-';
    assert |a| < |a'| ==> s[|a|] == a'[|a|] && IsDigit(a'[|a|]);
    assert |a'| < |a| ==> s[|a'|] == a[|a'|] && IsDigit(a[|a'|]);
    assert a == s[..|a|] && a' == s[..|a'|] && b == s[|a| + 1..] && b' == s[|a'| + 1..];
  }

  function ArchiveDir(ok: bool): Dir {
    if ok then Processed else ErrorDir
  }

  /** The searches that follow the claim succeed. */
  predicate LaterNamesFound(files: Files, name: string, ok: bool, tempSuffix: string) {
    var output := FreeName(NamesIn(files, Outbox), OutputName(name, ok));
    && output.Some?
    && FreeName(NamesIn(files, ArchiveDir(ok)), name).Some?
    && FreeName(NamesIn(files, Outbox), TempName(output.value, tempSuffix)).Some?
  }

  /** Every name search on the way of one file succeeds. */
  predicate NamesFound(files: Files, name: string, ok: bool, claimSuffix: string, tempSuffix: string)
    requires Path(Inbox, name) in files
  {
    var claim := FreeName(NamesIn(files, Processed), ClaimName(name, claimSuffix));
    claim.Some? && LaterNamesFound(Rename(files, Path(Inbox, name), Path(Processed, claim.value)), name, ok, tempSuffix)
  }

  /** The files after one request has been archived and answered: it left `from`, and two new files are there. */
  predicate Answered(before: Files, after: Files, from: Path, view: FileView)
    requires from in before && before[from].Request?
  {
    var archive, output := Path(ArchiveDir(view.ok), view.archivedFile), Path(Outbox, view.outputFile);
    && archive !in before && output !in before
    && after == (before - {from})[archive := before[from]][output := Report(before[from].id, view.ok, view.archivedFile)]
  }

  /** The two last steps on values. */
  lemma AnsweredInTwoSteps(claimed: Files, settled: Files, after: Files, from: Path, view: FileView)
    requires from in claimed && claimed[from].Request?
    requires Path(ArchiveDir(view.ok), view.archivedFile) !in claimed && Path(Outbox, view.outputFile) !in claimed
    requires settled == Rename(claimed, from, Path(ArchiveDir(view.ok), view.archivedFile))
    requires after == settled[Path(Outbox, view.outputFile) := Report(claimed[from].id, view.ok, view.archivedFile)]
    ensures Answered(claimed, after, from, view)
  {
  }

  lemma TempBecomesOutput(files: Files, temp: Path, output: Path, report: Content)
    requires temp !in files && temp != output
    ensures Rename(files[temp := report], temp, output) == files[output := report]
    ensures files[temp := report] - {temp} == files
  {
  }

  lemma AnsweredAfterClaim(before: Files, after: Files, from: Path, claim: Path, view: FileView)
    requires from in before && before[from].Request? && claim !in before && from.dir == Inbox
    requires Answered(Rename(before, from, claim), after, claim, view)
    ensures Answered(before, after, from, view)
  {
    var archive := Path(ArchiveDir(view.ok), view.archivedFile);
    assert (Rename(before, from, claim) - {claim})[archive := before[from]] == (before - {from})[archive := before[from]];
  }

  /** The name itself or a numbered form of it. */
  ghost predicate IsCandidate(desired: string, name: string) {
    exists n :: 0 <= n <= UNIQUE_ATTEMPTS && name == Candidate(desired, n)
  }

  lemma FreeIsCandidate(taken: set<string>, desired: string)
    ensures FreeName(taken, desired).Some? ==> IsCandidate(desired, FreeName(taken, desired).value)
  {
  }

  /** The request keeps its name in the archive, and the report on "stem.json" is "stem.result.json" or
      "stem.error.json"; either may be numbered. */
  ghost predicate NamedFor(name: string, view: FileView) {
    && |name| > 5 && name == name[..|name| - 5] + ".json"
    && IsCandidate(name, view.archivedFile)
    && IsCandidate(name[..|name| - 5] + (if view.ok then ".result" else ".error") + ".json", view.outputFile)
  }

  lemma NamedForStem(name: string, view: FileView)
    requires IsReadyFileName(name)
    requires IsCandidate(OutputName(name, view.ok), view.outputFile) && IsCandidate(name, view.archivedFile)
    ensures NamedFor(name, view)
  {
    var stem := ReadyStem(name);
    assert name[..|name| - 5] == stem;
    OutputNames(stem, view.ok, 0);
  }

  lemma AnsweredInbox(before: Files, after: Files, name: string, view: FileView)
    requires Path(Inbox, name) in before && before[Path(Inbox, name)].Request? && Answered(before, after, Path(Inbox, name), view)
    ensures forall n :: Path(Inbox, n) in after <==> Path(Inbox, n) in before && n != name
  {
  }

  /** Some directory holds more files than a name search looks at. */
  ghost predicate SomeFull(files: Files) {
    exists dir :: |NamesIn(files, dir)| > UNIQUE_ATTEMPTS
  }

  lemma FailedSearchMeansFull(files: Files, dir: Dir, desired: string)
    requires FreeName(NamesIn(files, dir), desired).None?
    ensures SomeFull(files)
  {
    NoFreeNameMeansFull(NamesIn(files, dir), desired);
  }

  lemma NamesAfterRename(files: Files, from: Path, to: Path, dir: Dir)
    requires from in files && from.dir != dir
    ensures NamesIn(Rename(files, from, to), dir) == NamesIn(files, dir) + if to.dir == dir then {to.name} else {}
  {
    forall n ensures n in NamesIn(Rename(files, from, to), dir) <==>
                     n in NamesIn(files, dir) || (to.dir == dir && n == to.name) {
      NameListed(files, dir, n);
      NameListed(Rename(files, from, to), dir, n);
    }
  }

  /** Only the outbox may differ. */
  ghost predicate SameElsewhere(files: Files, files': Files) {
    forall p: Path :: p.dir != Outbox ==> (p in files <==> p in files') && (p in files ==> files'[p] == files[p])
  }

  lemma NameListed(files: Files, dir: Dir, name: string)
    ensures name in NamesIn(files, dir) <==> Path(dir, name) in files
  {
    assert Path(dir, name) in files ==> Path(dir, name).name in NamesIn(files, dir);
  }

  class Worker {
    const pid: nat
    var files: Files
    var counter: nat
    ghost var phase: Phase
    var arrived: set<nat>
    ghost var published: seq<(nat, string)>
    ghost var trace: seq<System>

    ghost function State(): System
      reads this
    {
      System(files, phase, arrived, published)
    }

    ghost predicate Valid()
      reads this
    {
      && trace != [] && trace[|trace| - 1] == State()
      && StepByStep(trace) && Inv(trace[0])
    }

    /** Starts on directories that earlier workers may have left behind. */
    constructor (pid: nat, files: Files, arrived: set<nat>, ghost published: seq<(nat, string)>)
      requires Inv(System(files, Idle, arrived, published))
      ensures Valid() && phase.Idle? && trace == [State()]
      ensures this.files == files && this.arrived == arrived && this.published == published
    {
      this.pid, this.files, counter := pid, files, 0;
      this.phase, this.arrived, this.published := Idle, arrived, published;
      trace := [System(files, Idle, arrived, published)];
    }

    /** Every state the worker has been through, the present one included, keeps the invariant. */
    lemma TraceIsSound()
      requires Valid()
      ensures Inv(State()) && forall i :: 0 <= i < |trace| ==> Inv(trace[i])
    {
      TraceKeepsInv(trace);
    }

    /** What the invariant says of the file in hand. */
    lemma HandIsSound()
      requires Valid()
      ensures phase.Claimed? || phase.OutputChosen? ==> Holds(files, Path(Processed, phase.claim), phase.id)
      ensures phase.Archived? ==> Holds(files, Path(if phase.ok then Processed else ErrorDir, phase.archived), phase.id)
      ensures phase.Archived? || phase.TempWritten? ==> Path(Outbox, phase.output) !in files
      ensures phase.TempWritten? ==> phase.temp != phase.output && Path(Outbox, phase.temp) in files
      ensures forall name :: Path(Inbox, name) in files ==> files[Path(Inbox, name)].Request?
    {
      TraceIsSound();
    }

    /** Appends the present state to the trace, as the result of one protocol step. */
    ghost method Log(before: System, a: Action)
      requires trace != [] && trace[|trace| - 1] == before && StepByStep(trace) && Inv(trace[0])
      requires Do(before, a) == Some(State())
      modifies this`trace
      ensures Valid() && trace == old(trace) + [State()]
    {
      StepsGrow(trace, a, State());
      trace := trace + [State()];
    }

    /** The process gives up: nothing on disk changes. */
    ghost method GiveUp()
      requires Valid()
      modifies this`phase, this`trace
      ensures Valid() && phase.Idle? && old(trace) <= trace
    {
      var before := State();
      phase := Idle;
      Log(before, Stop);
    }

    /** What others do between two passes: drop a request under a free name, or collect a report. */
    method Happen(event: Action)
      requires Valid() && phase.Idle?
      modifies this`files, this`arrived, this`trace
      ensures Valid() && phase.Idle? && old(trace) <= trace && published == old(published)
      ensures State() == if (event.Arrive? || event.Collect?) && Do(old(State()), event).Some?
                         then Do(old(State()), event).value else old(State())
    {
      ghost var before := State();
      match event
      case Arrive(name, id, text) =>
        if Path(Inbox, name) !in files && id !in arrived {
          files, arrived := files[Path(Inbox, name) := Request(id, text)], arrived + {id};
          Log(before, event);
        }
      case Collect(name) =>
        files := files - {Path(Outbox, name)};
        Log(before, event);
      case _ =>
    }

    method NextUniqueSuffix() returns (suffix: string)
      requires Valid()
      modifies this`counter
      ensures Valid() && suffix == Suffix(pid, old(counter)) && counter == old(counter) + 1
    {
      suffix := Decimal(pid) + "-" + Decimal(counter);
      counter := counter + 1;
    }

    method ClaimReadyFile(name: string, renameOk: bool) returns (r: Result<ClaimTicket, FileDropError>)
      requires Valid() && phase.Idle?
      modifies this
      ensures Valid() && old(trace) <= trace && published == old(published) && arrived == old(arrived)
      ensures r.Err? ==> files == old(files) && phase.Idle?
      ensures r == Err(NotReady) <==> !IsReadyFileName(name)
      ensures var claim := FreeName(NamesIn(old(files), Processed), ClaimName(name, Suffix(pid, old(counter))));
              && (r == Err(NoFreeName) <==> IsReadyFileName(name) && claim.None?)
              && (r.Ok? <==> IsReadyFileName(name) && claim.Some? && renameOk && Path(Inbox, name) in old(files))
              && (r.Ok? ==> r.value == ClaimTicket(name, claim.value) && counter == old(counter) + 1)
      ensures r.Err? && r.error != NotReady && r.error != NoFreeName ==> r.error == IoFailure
      ensures r == Err(NoFreeName) ==> SomeFull(files)
      ensures r.Ok? ==> old(files)[Path(Inbox, name)].Request?
                        && phase == Claimed(name, r.value.claimName, old(files)[Path(Inbox, name)].id)
                        && files == Rename(old(files), Path(Inbox, name), Path(Processed, r.value.claimName))
    {
      if !IsReadyFileName(name) { return Err(NotReady); }
      var suffix := NextUniqueSuffix();
      var free := UniquePath(files, Processed, ClaimName(name, suffix));
      if free.None? {
        FailedSearchMeansFull(files, Processed, ClaimName(name, suffix));
        return Err(NoFreeName);
      }
      var source := Path(Inbox, name);
      if !renameOk || source !in files { return Err(IoFailure); }
      assert files[source].Request? by { HandIsSound(); }
      MoveToClaim(name, suffix, free.value);
      return Ok(ClaimTicket(name, free.value));
    }

    /** The claim's rename. */
    method MoveToClaim(name: string, ghost suffix: string, claim: string)
      requires Valid() && phase.Idle? && IsReadyFileName(name)
      requires Path(Inbox, name) in files && files[Path(Inbox, name)].Request?
      requires FreeName(NamesIn(files, Processed), ClaimName(name, suffix)) == Some(claim)
      modifies this`files, this`phase, this`trace
      ensures Valid() && old(trace) <= trace
      ensures files == Rename(old(files), Path(Inbox, name), Path(Processed, claim))
      ensures phase == Claimed(name, claim, old(files)[Path(Inbox, name)].id)
    {
      ghost var before := State();
      ghost var id := files[Path(Inbox, name)].id;
      files := Rename(files, Path(Inbox, name), Path(Processed, claim));
      phase := Claimed(name, claim, id);
      Log(before, Claim(name, suffix));
    }

    method OutputPathForClaim(claim: ClaimTicket, ok: bool) returns (r: Result<string, FileDropError>)
      requires Valid() && phase.Claimed? && phase.name == claim.originalName && phase.claim == claim.claimName
      modifies this`phase, this`trace
      ensures Valid() && old(trace) <= trace
      ensures var free := FreeName(NamesIn(files, Outbox), OutputName(claim.originalName, ok));
              r == if free.Some? then Ok(free.value) else Err(NoFreeName)
      ensures r.Err? ==> phase.Idle? && SomeFull(files)
      ensures r.Ok? ==> Path(Outbox, r.value) !in files
      ensures r.Ok? ==> phase == OutputChosen(old(phase).name, old(phase).claim, old(phase).id, r.value, ok)
    {
      var free := UniquePath(files, Outbox, OutputName(claim.originalName, ok));
      if free.None? {
        FailedSearchMeansFull(files, Outbox, OutputName(claim.originalName, ok));
        GiveUp();
        return Err(NoFreeName);
      }
      FreeIsFree(files, Outbox, OutputName(claim.originalName, ok));
      ghost var before := State();
      phase := OutputChosen(phase.name, phase.claim, phase.id, free.value, ok);
      Log(before, ChooseOutput(ok));
      return Ok(free.value);
    }

    method CompleteClaim(claim: ClaimTicket, ok: bool, renameOk: bool) returns (r: Result<string, FileDropError>)
      requires Valid() && phase.OutputChosen? && phase.ok == ok
      requires phase.name == claim.originalName && phase.claim == claim.claimName
      modifies this`files, this`phase, this`trace
      ensures Valid() && old(trace) <= trace
      ensures var free := FreeName(NamesIn(old(files), ArchiveDir(ok)), claim.originalName);
              r == if free.None? then Err(NoFreeName) else if renameOk then Ok(free.value) else Err(IoFailure)
      ensures r.Err? ==> phase.Idle? && files == old(files)
      ensures r == Err(NoFreeName) ==> SomeFull(files)
      ensures r.Ok? ==> Path(ArchiveDir(ok), r.value) !in old(files) && NamesIn(files, Outbox) == NamesIn(old(files), Outbox)
      ensures r.Ok? ==> phase == Archived(old(phase).id, old(phase).output, ok, r.value)
                        && Path(Processed, claim.claimName) in old(files)
                        && files == Rename(old(files), Path(Processed, claim.claimName), Path(ArchiveDir(ok), r.value))
    {
      var dir := ArchiveDir(ok);
      var free := UniquePath(files, dir, claim.originalName);
      if free.None? || !renameOk {
        if free.None? { FailedSearchMeansFull(files, dir, claim.originalName); }
        GiveUp();
        return Err(if free.None? then NoFreeName else IoFailure);
      }
      HandIsSound();
      FreeIsFree(files, dir, claim.originalName);
      NamesAfterRename(files, Path(Processed, claim.claimName), Path(dir, free.value), Outbox);
      ghost var before := State();
      files := Rename(files, Path(Processed, claim.claimName), Path(dir, free.value));
      phase := Archived(phase.id, phase.output, ok, free.value);
      Log(before, Archive);
      return Ok(free.value);
    }

    method WriteTempFile(output: string, report: Content, writeOk: bool, leavesPartial: bool)
      returns (r: Result<string, FileDropError>)
      requires Valid() && phase.Archived? && phase.output == output && report == Report(phase.id, phase.ok, phase.archived)
      modifies this
      ensures Valid() && old(trace) <= trace && arrived == old(arrived) && published == old(published)
      ensures var free := FreeName(NamesIn(old(files), Outbox), TempName(output, Suffix(pid, old(counter))));
              && r == (if free.None? then Err(NoFreeName) else if writeOk then Ok(free.value) else Err(IoFailure))
              && files == if free.None? || (!writeOk && !leavesPartial) then old(files)
                          else old(files)[Path(Outbox, free.value) := if writeOk then report else Partial]
      ensures r.Err? ==> phase.Idle?
      ensures r == Err(NoFreeName) ==> SomeFull(files)
      ensures r.Ok? ==> phase == TempWritten(old(phase).id, old(phase).output, r.value) && Path(Outbox, r.value) !in old(files)
    {
      var suffix := NextUniqueSuffix();
      var free := UniquePath(files, Outbox, TempName(output, suffix));
      if free.None? {
        FailedSearchMeansFull(files, Outbox, TempName(output, suffix));
        GiveUp();
        return Err(NoFreeName);
      }
      FreeIsFree(files, Outbox, TempName(output, suffix));
      if !writeOk {
        FailWrite(free.value, suffix, leavesPartial);
        return Err(IoFailure);
      }
      SaveTemp(free.value, suffix, report);
      return Ok(free.value);
    }

    /** A write that succeeds. */
    method SaveTemp(temp: string, ghost suffix: string, report: Content)
      requires Valid() && phase.Archived? && report == Report(phase.id, phase.ok, phase.archived)
      requires FreeName(NamesIn(files, Outbox), TempName(phase.output, suffix)) == Some(temp)
      modifies this`files, this`phase, this`trace
      ensures Valid() && old(trace) <= trace
      ensures files == old(files)[Path(Outbox, temp) := report]
      ensures phase == TempWritten(old(phase).id, old(phase).output, temp)
    {
      ghost var before := State();
      files := files[Path(Outbox, temp) := report];
      phase := TempWritten(phase.id, phase.output, temp);
      Log(before, WriteTemp(suffix));
    }

    /** A write that fails, perhaps halfway. */
    method FailWrite(temp: string, ghost suffix: string, leavesPartial: bool)
      requires Valid() && phase.Archived?
      requires FreeName(NamesIn(files, Outbox), TempName(phase.output, suffix)) == Some(temp)
      modifies this`files, this`phase, this`trace
      ensures Valid() && old(trace) <= trace && phase.Idle?
      ensures files == if leavesPartial then old(files)[Path(Outbox, temp) := Partial] else old(files)
    {
      ghost var before := State();
      if leavesPartial { files := files[Path(Outbox, temp) := Partial]; }
      phase := Idle;
      Log(before, if leavesPartial then WritePartial(suffix) else Stop);
    }

    method PublishTemp(temp: string, output: string, renameOk: bool, removeOk: bool) returns (r: Result<(), FileDropError>)
      requires Valid() && phase.TempWritten? && phase.temp == temp && phase.output == output
      modifies this`files, this`phase, this`published, this`trace
      ensures Valid() && old(trace) <= trace && phase.Idle?
      ensures r == if renameOk then Ok(()) else Err(IoFailure)
      ensures published == old(published) + if renameOk then [(old(phase).id, output)] else []
      ensures Path(Outbox, temp) in old(files)
      ensures files == if renameOk then Rename(old(files), Path(Outbox, temp), Path(Outbox, output))
                       else if removeOk then old(files) - {Path(Outbox, temp)} else old(files)
    {
      HandIsSound();
      if !renameOk && !removeOk {
        GiveUp();
        return Err(IoFailure);
      }
      ghost var before := State();
      if !renameOk {
        files := files - {Path(Outbox, temp)};
        phase := Idle;
        Log(before, AbandonTemp);
        return Err(IoFailure);
      }
      files := Rename(files, Path(Outbox, temp), Path(Outbox, output));
      published := published + [(phase.id, output)];
      phase := Idle;
      Log(before, Publish);
      return Ok(());
    }

    /** Temporary file, then atomic rename; a failed rename tries to remove the temporary file. */
    method WriteOutputAtomic(output: string, report: Content, faults: Faults) returns (r: Result<(), FileDropError>)
      requires Valid() && phase.Archived? && phase.output == output
      requires report == Report(phase.id, phase.ok, phase.archived)
      modifies this
      ensures Valid() && old(trace) <= trace && phase.Idle? && arrived == old(arrived)
      ensures var free := FreeName(NamesIn(old(files), Outbox), TempName(output, Suffix(pid, old(counter))));
              && r == (if free.None? then Err(NoFreeName) else if faults.writeOk && faults.publishOk then Ok(()) else Err(IoFailure))
      ensures r == Err(NoFreeName) ==> SomeFull(files)
      ensures published == old(published) + if r.Ok? then [(old(phase).id, output)] else []
      ensures r.Ok? ==> files == old(files)[Path(Outbox, output) := report]
      ensures SameElsewhere(old(files), files)
    {
      var temp := WriteTempFile(output, report, faults.writeOk, faults.leavesPartial);
      if temp.Err? { return Err(temp.error); }
      HandIsSound();
      TempBecomesOutput(old(files), Path(Outbox, temp.value), Path(Outbox, output), report);
      r := PublishTemp(temp.value, output, faults.publishOk, faults.removeOk);
    }

    /** The output name is chosen first, then the request is archived. */
    method ArchiveClaim(claim: ClaimTicket, ok: bool, renameOk: bool) returns (r: Result<(string, string), FileDropError>)
      requires Valid() && phase.Claimed? && phase.name == claim.originalName && phase.claim == claim.claimName
      modifies this`files, this`phase, this`trace
      ensures Valid() && old(trace) <= trace
      ensures r.Ok? <==> renameOk && FreeName(NamesIn(old(files), Outbox), OutputName(claim.originalName, ok)).Some?
                         && FreeName(NamesIn(old(files), ArchiveDir(ok)), claim.originalName).Some?
      ensures r.Err? ==> phase.Idle? && (r == Err(NoFreeName) || r == Err(IoFailure))
      ensures r == Err(NoFreeName) ==> SomeFull(files)
      ensures r == Err(IoFailure) ==> !renameOk
      ensures r.Ok? ==>
                var (output, archived) := r.value;
                && FreeName(NamesIn(old(files), Outbox), OutputName(claim.originalName, ok)) == Some(output)
                && Path(Outbox, output) !in old(files) && Path(ArchiveDir(ok), archived) !in old(files)
                && IsCandidate(OutputName(claim.originalName, ok), output) && IsCandidate(claim.originalName, archived)
                && NamesIn(files, Outbox) == NamesIn(old(files), Outbox)
                && phase == Archived(old(phase).id, output, ok, archived)
                && Path(Processed, claim.claimName) in old(files)
                && files == Rename(old(files), Path(Processed, claim.claimName), Path(ArchiveDir(ok), archived))
    {
      var output := OutputPathForClaim(claim, ok);
      if output.Err? { return Err(output.error); }
      var archived := CompleteClaim(claim, ok, renameOk);
      if archived.Err? { return Err(archived.error); }
      FreeIsCandidate(NamesIn(old(files), Outbox), OutputName(claim.originalName, ok));
      FreeIsCandidate(NamesIn(old(files), ArchiveDir(ok)), claim.originalName);
      return Ok((output.value, archived.value));
    }

    /** What follows the claim: choose the output, archive the request, publish the report. */
    method FinishClaim(claim: ClaimTicket, request: Content, ok: bool, faults: Faults) returns (r: Result<FileView, FileDropError>)
      requires Valid() && phase.Claimed? && phase.name == claim.originalName && phase.claim == claim.claimName
      requires request.Request? && request.id == phase.id
      requires Path(Processed, claim.claimName) in files && files[Path(Processed, claim.claimName)] == request
      modifies this
      ensures Valid() && phase.Idle? && old(trace) <= trace && arrived == old(arrived)
      ensures r.Ok? <==> faults.archiveOk && faults.writeOk && faults.publishOk
                         && LaterNamesFound(old(files), claim.originalName, ok, Suffix(pid, old(counter)))
      ensures r == Err(IoFailure) ==> !faults.AllClear()
      ensures r == Err(NoFreeName) ==> SomeFull(files)
      ensures r.Err? ==> (r.error == NoFreeName || r.error == IoFailure) && published == old(published)
      ensures r.Ok? ==> r.value.inputFile == claim.originalName && r.value.ok == ok
                        && published == old(published) + [(request.id, r.value.outputFile)]
                        && Answered(old(files), files, Path(Processed, claim.claimName), r.value)
                        && IsCandidate(OutputName(claim.originalName, ok), r.value.outputFile)
                        && IsCandidate(claim.originalName, r.value.archivedFile)
    {
      ghost var claimed := files;
      ghost var from := Path(Processed, claim.claimName);
      var names := ArchiveClaim(claim, ok, faults.archiveOk);
      if names.Err? { return Err(names.error); }
      var (output, archived) := names.value;
      ghost var settled := files;
      var written := WriteOutputAtomic(output, Report(request.id, ok, archived), faults);
      if written.Err? { return Err(written.error); }
      var view := FileView(claim.originalName, ok, output, archived);
      AnsweredInTwoSteps(claimed, settled, files, from, view);
      return Ok(view);
    }

    /** One file, start to end. `handles` decides whether a request parses and runs. */
    method ProcessFile(name: string, handles: Content -> bool, faults: Faults) returns (r: Result<FileView, FileDropError>)
      requires Valid() && phase.Idle?
      modifies this
      ensures Valid() && phase.Idle? && old(trace) <= trace && arrived == old(arrived)
      ensures var source := Path(Inbox, name);
              r.Ok? <==>
                && IsReadyFileName(name) && source in old(files) && faults.AllClear()
                && NamesFound(old(files), name, handles(old(files)[source]), Suffix(pid, old(counter)), Suffix(pid, old(counter) + 1))
      ensures r == Err(NotReady) <==> !IsReadyFileName(name)
      ensures r == Err(IoFailure) ==> Path(Inbox, name) !in old(files) || !faults.AllClear()
      ensures r == Err(NoFreeName) ==> SomeFull(files)
      ensures r.Err? ==> r.error != BadLimit && published == old(published)
      ensures r.Ok? ==>
                var request := old(files)[Path(Inbox, name)];
                && request.Request?
                && r.value.inputFile == name && r.value.ok == handles(request)
                && published == old(published) + [(request.id, r.value.outputFile)]
                && Answered(old(files), files, Path(Inbox, name), r.value)
      ensures r.Ok? ==> NamedFor(name, r.value)
    {
      ghost var first := files;
      ghost var source := Path(Inbox, name);
      var claim := ClaimReadyFile(name, faults.claimOk);
      if claim.Err? { return Err(claim.error); }
      ghost var claimPath := Path(Processed, claim.value.claimName);
      FreeIsFree(first, Processed, ClaimName(name, Suffix(pid, old(counter))));
      if !faults.readOk {
        GiveUp();
        return Err(IoFailure);
      }
      var request := files[Path(Processed, claim.value.claimName)];
      r := FinishClaim(claim.value, request, handles(request), faults);
      if r.Ok? {
        AnsweredAfterClaim(first, files, source, claimPath, r.value);
        NamedForStem(name, r.value);
      }
    }

    /** Ready inbox files in name order. */
    method ReadyFiles() returns (names: seq<string>)
      ensures IsReadyList(files, names)
    {
      names := [];
      var entries := NamesIn(files, Inbox);
      ghost var done: set<string> := {};
      while entries != {}
        invariant Sorted(names)
        invariant entries + done == NamesIn(files, Inbox) && entries !! done
        invariant forall n :: n in names <==> n in done && IsReadyFileName(n)
        decreases |entries|
      {
        var entry :| entry in entries;
        entries, done := entries - {entry}, done + {entry};
        if IsReadyFileName(entry) {
          InsertSorts(entry, names);
          names := Insert(entry, names);
        }
      }
      forall n ensures n in names <==> Path(Inbox, n) in files && IsReadyFileName(n) {
        if Path(Inbox, n) in files { assert Path(Inbox, n).name in NamesIn(files, Inbox); }
      }
    }
  }

  // ----- The run -----

  datatype Tally = Tally(scanned: nat, processed: nat, succeeded: nat, failed: nat, files: seq<FileView>) {
    /** The counters count the views. */
    predicate Consistent() {
      processed == |files| == succeeded + failed && succeeded == |Filter(files, (v: FileView) => v.ok)|
    }
    function Add(view: FileView): Tally {
      Tally(scanned, processed + 1, succeeded + (if view.ok then 1 else 0), failed + (if view.ok then 0 else 1), files + [view])
    }
    function Merge(other: Tally): Tally {
      Tally(scanned + other.scanned, processed + other.processed, succeeded + other.succeeded,
            failed + other.failed, files + other.files)
    }
  }

  const NO_TALLY := Tally(0, 0, 0, 0, [])

  lemma AddIsConsistent(a: Tally, view: FileView)
    requires a.Consistent()
    ensures a.Add(view).Consistent()
  {
    FilterSnoc(a.files, view, (v: FileView) => v.ok);
  }

  lemma MergeIsConsistent(a: Tally, b: Tally)
    requires a.Consistent() && b.Consistent()
    ensures a.Merge(b).Consistent() && a.Merge(b).files == a.files + b.files && a.Merge(b).scanned == a.scanned + b.scanned
  {
    FilterConcat(a.files, b.files, (v: FileView) => v.ok);
  }

  /** The reports published for a list of processed files, in order. */
  ghost predicate Reports(published: seq<(nat, string)>, files: seq<FileView>) {
    |published| == |files| && forall i :: 0 <= i < |files| ==> published[i].1 == files[i].outputFile
  }

  lemma ReportsJoin(p: seq<(nat, string)>, q: seq<(nat, string)>, r: seq<(nat, string)>, f: seq<FileView>, g: seq<FileView>)
    requires p <= q <= r && Reports(q[|p|..], f) && Reports(r[|q|..], g)
    ensures p <= r && Reports(r[|p|..], f + g)
  {
    assert r[|p|..] == q[|p|..] + r[|q|..];
  }

  lemma ReportsOneMore(start: seq<(nat, string)>, published: seq<(nat, string)>, files: seq<FileView>, entry: (nat, string), view: FileView)
    requires start <= published && Reports(published[|start|..], files) && entry.1 == view.outputFile
    ensures start <= published + [entry] && Reports((published + [entry])[|start|..], files + [view])
  {
    assert (published + [entry])[|start|..] == published[|start|..] + [entry];
  }

  function Least(limit: Option<nat>, n: nat): (r: nat)
    ensures r <= n && (r == n || limit == Some(r))
    ensures limit.Some? ==> r <= limit.value
  {
    if limit.Some? && limit.value < n then limit.value else n
  }

  /** The views are of these files, in order. */
  ghost predicate ViewsOf(views: seq<FileView>, names: seq<string>) {
    |views| == |names| && forall k :: 0 <= k < |names| ==> views[k].inputFile == names[k]
  }

  /** Why a run may fail: a full directory, or a fault. */
  ghost predicate Excused(error: FileDropError, files: Files, someFault: bool) {
    (error == NoFreeName && SomeFull(files)) || (error == IoFailure && someFault)
  }

  ghost predicate SomeFault(faults: string -> Faults) {
    exists name :: !faults(name).AllClear()
  }

  /** No ready file is left. */
  ghost predicate NothingReady(files: Files) {
    forall n :: Path(Inbox, n) in files ==> !IsReadyFileName(n)
  }

  /** One pass: the first ready files, as many as wanted, in name order. */
  method ProcessReadyFiles(worker: Worker, remaining: Option<nat>, handles: Content -> bool, faults: string -> Faults)
    returns (r: Result<Tally, FileDropError>)
    requires worker.Valid() && worker.phase.Idle?
    modifies worker
    ensures worker.Valid() && worker.phase.Idle? && old(worker.trace) <= worker.trace && worker.arrived == old(worker.arrived)
    ensures old(worker.published) <= worker.published
    ensures r.Err? ==> Excused(r.error, worker.files, SomeFault(faults))
    ensures r.Ok? ==> r.value.Consistent() && Reports(worker.published[|old(worker.published)|..], r.value.files)
    ensures r.Ok? && remaining.Some? ==> r.value.processed <= remaining.value
    ensures r.Ok? && (remaining.None? || r.value.processed < remaining.value) ==> NothingReady(worker.files)
    ensures r.Ok? ==>
              forall ready :: IsReadyList(old(worker.files), ready) ==>
                && r.value.scanned == |ready|
                && Passed(old(worker.files), worker.files, r.value.files, ready[..Least(remaining, |ready|)])
  {
    var ready := worker.ReadyFiles();
    var limit := Least(remaining, |ready|);
    var tally := NO_TALLY.(scanned := |ready|);
    ghost var start := worker.published;
    for i := 0 to limit
      invariant worker.Valid() && worker.phase.Idle? && old(worker.trace) <= worker.trace && worker.arrived == old(worker.arrived)
      invariant tally.Consistent() && tally.scanned == |ready|
      invariant Passed(old(worker.files), worker.files, tally.files, ready[..i])
      invariant start <= worker.published && Reports(worker.published[|start|..], tally.files)
    {
      var next := ProcessNext(worker, tally, old(worker.files), start, ready, i, handles, faults(ready[i]));
      if next.Err? { return next; }
      tally := next.value;
    }
    PassIsWhole(old(worker.files), worker.files, tally.files, ready, limit);
    return Ok(tally);
  }

  /** The next file of a pass. */
  method ProcessNext(worker: Worker, tally: Tally, ghost first: Files, ghost start: seq<(nat, string)>, ready: seq<string>, i: nat,
                     handles: Content -> bool, faults: Faults)
    returns (r: Result<Tally, FileDropError>)
    requires worker.Valid() && worker.phase.Idle?
    requires tally.Consistent() && i < |ready| && IsReadyList(first, ready)
    requires Passed(first, worker.files, tally.files, ready[..i])
    requires start <= worker.published && Reports(worker.published[|start|..], tally.files)
    modifies worker
    ensures worker.Valid() && worker.phase.Idle? && old(worker.trace) <= worker.trace && worker.arrived == old(worker.arrived)
    ensures start <= worker.published
    ensures r.Err? ==> Excused(r.error, worker.files, !faults.AllClear())
    ensures r.Ok? ==> r.value.Consistent() && r.value.scanned == tally.scanned
                      && Passed(first, worker.files, r.value.files, ready[..i + 1])
                      && Reports(worker.published[|start|..], r.value.files)
  {
    ghost var before, filesBefore := worker.published, worker.files;
    ReadyIsThere(first, worker.files, tally.files, ready, i);
    var view := worker.ProcessFile(ready[i], handles, faults);
    if view.Err? { return Err(view.error); }
    ReportsOneMore(start, before, tally.files, worker.published[|before|], view.value);
    OneMore(first, filesBefore, worker.files, tally, view.value, ready, i);
    return Ok(tally.Add(view.value));
  }

  lemma PassIsWhole(first: Files, files: Files, views: seq<FileView>, ready: seq<string>, limit: nat)
    requires IsReadyList(first, ready) && limit <= |ready| && Passed(first, files, views, ready[..limit])
    ensures forall other :: IsReadyList(first, other) ==> other == ready
    ensures limit == |ready| ==> NothingReady(files)
  {
    ReadyListsAgree(first, ready);
    assert ready[..|ready|] == ready;
  }

  lemma ReadyListsAgree(files: Files, ready: seq<string>)
    requires IsReadyList(files, ready)
    ensures forall other :: IsReadyList(files, other) ==> other == ready
  {
    forall other | IsReadyList(files, other) ensures other == ready { SortedNamesAgree(other, ready); }
  }

  /** These files have been processed and have left the inbox; the other inbox files are still there. */
  ghost predicate Passed(first: Files, files: Files, views: seq<FileView>, names: seq<string>) {
    ViewsOf(views, names) && forall n :: Path(Inbox, n) in files <==> Path(Inbox, n) in first && n !in names
  }

  lemma ReadyIsThere(first: Files, files: Files, views: seq<FileView>, ready: seq<string>, i: nat)
    requires IsReadyList(first, ready) && i < |ready| && Passed(first, files, views, ready[..i])
    ensures IsReadyFileName(ready[i]) && Path(Inbox, ready[i]) in files
  {
    assert ready[i] in ready && ready[i] !in ready[..i];
  }

  lemma OneMore(first: Files, before: Files, files: Files, tally: Tally, view: FileView, ready: seq<string>, i: nat)
    requires i < |ready| && tally.Consistent() && Passed(first, before, tally.files, ready[..i]) && view.inputFile == ready[i]
    requires Path(Inbox, ready[i]) in before && before[Path(Inbox, ready[i])].Request?
    requires Answered(before, files, Path(Inbox, ready[i]), view)
    ensures tally.Add(view).Consistent() && Passed(first, files, tally.files + [view], ready[..i + 1])
  {
    AddIsConsistent(tally, view);
    AnsweredInbox(before, files, ready[i], view);
    PassedOneMore(first, before, files, tally.files, view, ready, i);
  }

  lemma PassedOneMore(first: Files, before: Files, files: Files, views: seq<FileView>, view: FileView, ready: seq<string>, i: nat)
    requires i < |ready| && Passed(first, before, views, ready[..i]) && view.inputFile == ready[i]
    requires forall n :: Path(Inbox, n) in files <==> Path(Inbox, n) in before && n != ready[i]
    ensures Passed(first, files, views + [view], ready[..i + 1])
  {
    assert ready[..i + 1] == ready[..i] + [ready[i]];
  }

  /** The views begin with the files that were ready at first, in order, as many as wanted. */
  ghost predicate Covers(views: seq<FileView>, files: Files, limit: Option<nat>) {
    forall ready :: IsReadyList(files, ready) ==>
      var n := Least(limit, |ready|);
      n <= |views| && ViewsOf(views[..n], ready[..n])
  }

  /** There are as many views as files that were ready, within the limit. */
  ghost predicate CountFits(count: nat, files: Files, limit: Option<nat>) {
    forall ready :: IsReadyList(files, ready) ==> count == Least(limit, |ready|)
  }

  lemma CoversGrows(views: seq<FileView>, longer: seq<FileView>, files: Files, limit: Option<nat>)
    requires Covers(views, files, limit) && views <= longer
    ensures Covers(longer, files, limit)
  {
    forall ready | IsReadyList(files, ready)
      ensures var n := Least(limit, |ready|); n <= |longer| && ViewsOf(longer[..n], ready[..n])
    {
      var n := Least(limit, |ready|);
      assert longer[..n] == views[..n];
    }
  }

  /** A file of this name was in the inbox at some point of the trace. */
  ghost predicate Taken(trace: seq<System>, name: string) {
    exists t :: 0 <= t < |trace| && Path(Inbox, name) in trace[t].files
  }

  /** Each request dropped has arrived, unless its name was taken. */
  ghost predicate Offered(events: seq<Action>, arrived: set<nat>, trace: seq<System>) {
    forall i :: 0 <= i < |events| && events[i].Arrive? ==> events[i].id in arrived || Taken(trace, events[i].arriving)
  }

  predicate Offers(events: seq<Action>, id: nat) {
    exists i :: 0 <= i < |events| && events[i].Arrive? && events[i].id == id
  }

  /** What arrived in the first `sleeps` sleeps, and nothing else. */
  ghost predicate Watched(events: nat -> seq<Action>, sleeps: nat, before: set<nat>, arrived: set<nat>, trace: seq<System>) {
    && (forall k: nat :: k < sleeps ==> Offered(events(k), arrived, trace))
    && before <= arrived
    && (forall id :: id in arrived ==> id in before || exists k: nat :: k < sleeps && Offers(events(k), id))
  }

  lemma OfferedGrows(events: seq<Action>, arrived: set<nat>, trace: seq<System>, arrived': set<nat>, trace': seq<System>)
    requires Offered(events, arrived, trace) && arrived <= arrived' && trace <= trace'
    ensures Offered(events, arrived', trace')
  {
    forall i | 0 <= i < |events| && events[i].Arrive?
      ensures events[i].id in arrived' || Taken(trace', events[i].arriving)
    {
      if events[i].id !in arrived {
        var t :| 0 <= t < |trace| && Path(Inbox, events[i].arriving) in trace[t].files;
        assert trace'[t] == trace[t];
      }
    }
  }

  /** The trace grows without arrivals. */
  lemma WatchedStays(events: nat -> seq<Action>, sleeps: nat, before: set<nat>, arrived: set<nat>, trace: seq<System>, trace': seq<System>)
    requires Watched(events, sleeps, before, arrived, trace) && trace <= trace'
    ensures Watched(events, sleeps, before, arrived, trace')
  {
    forall k: nat | k < sleeps ensures Offered(events(k), arrived, trace') {
      OfferedGrows(events(k), arrived, trace, arrived, trace');
    }
  }

  /** One more sleep. */
  lemma WatchedLonger(events: nat -> seq<Action>, sleeps: nat, before: set<nat>, arrived: set<nat>, trace: seq<System>,
                      arrived': set<nat>, trace': seq<System>)
    requires Watched(events, sleeps, before, arrived, trace) && arrived <= arrived' && trace <= trace'
    requires Offered(events(sleeps), arrived', trace')
    requires forall id :: id in arrived' ==> id in arrived || Offers(events(sleeps), id)
    ensures Watched(events, sleeps + 1, before, arrived', trace')
  {
    forall k: nat | k < sleeps + 1 ensures Offered(events(k), arrived', trace') {
      if k < sleeps { OfferedGrows(events(k), arrived, trace, arrived', trace'); }
    }
    forall id | id in arrived' && id !in before ensures exists k: nat :: k < sleeps + 1 && Offers(events(k), id) {
      if id in arrived {
        var k: nat :| k < sleeps && Offers(events(k), id);
        assert k < sleeps + 1 && Offers(events(k), id);
      } else {
        assert sleeps < sleeps + 1 && Offers(events(sleeps), id);
      }
    }
  }

  /** The adapter loop. The clock is a number of sleeps before the deadline; `events` is what others do while
      the worker sleeps. `sleeps` counts the sleeps made. */
  method RunFileDropAdapter(worker: Worker, maxFiles: Option<nat>, once: bool, rounds: nat, events: nat -> seq<Action>,
                            handles: Content -> bool, faults: nat -> string -> Faults)
    returns (r: Result<Tally, FileDropError>, sleeps: nat)
    requires worker.Valid() && worker.phase.Idle?
    modifies worker
    ensures worker.Valid() && worker.phase.Idle? && old(worker.trace) <= worker.trace
    ensures old(worker.published) <= worker.published
    ensures Watched(events, sleeps, old(worker.arrived), worker.arrived, worker.trace)
    ensures sleeps <= rounds && (once ==> sleeps == 0)
    ensures r.Ok? && !once ==> sleeps == rounds || (maxFiles.Some? && r.value.processed == maxFiles.value)
    ensures r == Err(BadLimit) <==> maxFiles == Some(0)
    ensures r.Err? && maxFiles != Some(0) ==> Excused(r.error, worker.files, exists round: nat :: SomeFault(faults(round)))
    ensures r.Ok? ==> r.value.Consistent() && Reports(worker.published[|old(worker.published)|..], r.value.files)
    ensures r.Ok? ==> if maxFiles.Some? && r.value.processed >= maxFiles.value then r.value.processed == maxFiles.value
                      else NothingReady(worker.files)
    ensures r.Ok? ==> Covers(r.value.files, old(worker.files), maxFiles)
    ensures r.Ok? && once ==> CountFits(r.value.processed, old(worker.files), maxFiles)
  {
    sleeps := 0;
    if maxFiles == Some(0) { return Err(BadLimit), 0; }
    ghost var start, first := worker.published, worker.files;
    var total := NO_TALLY;
    while true
      invariant worker.Valid() && worker.phase.Idle? && old(worker.trace) <= worker.trace
      invariant total.Consistent() && (maxFiles.Some? ==> total.processed < maxFiles.value)
      invariant start <= worker.published && Reports(worker.published[|start|..], total.files)
      invariant sleeps <= rounds && Watched(events, sleeps, old(worker.arrived), worker.arrived, worker.trace)
      invariant if sleeps == 0 then total.files == [] && worker.files == first else !once && Covers(total.files, first, maxFiles)
      decreases rounds - sleeps
    {
      ghost var before, trace, arrived := total.files, worker.trace, worker.arrived;
      var next := AddPass(worker, total, start, maxFiles, handles, faults(sleeps));
      WatchedStays(events, sleeps, old(worker.arrived), worker.arrived, trace, worker.trace);
      if next.Err? { return next, sleeps; }
      total := next.value;
      if sleeps > 0 { CoversGrows(before, total.files, first, maxFiles); }
      if once { break; }
      if maxFiles.Some? && total.processed >= maxFiles.value { break; }
      if sleeps >= rounds { break; }
      trace := worker.trace;
      LetHappen(worker, events(sleeps));
      WatchedLonger(events, sleeps, old(worker.arrived), arrived, trace, worker.arrived, worker.trace);
      sleeps := sleeps + 1;
    }
    return Ok(total), sleeps;
  }

  /** One round: a pass, merged into the totals. */
  method AddPass(worker: Worker, total: Tally, ghost start: seq<(nat, string)>, maxFiles: Option<nat>,
                 handles: Content -> bool, faults: string -> Faults)
    returns (r: Result<Tally, FileDropError>)
    requires worker.Valid() && worker.phase.Idle?
    requires total.Consistent() && (maxFiles.Some? ==> total.processed < maxFiles.value)
    requires start <= worker.published && Reports(worker.published[|start|..], total.files)
    modifies worker
    ensures worker.Valid() && worker.phase.Idle? && old(worker.trace) <= worker.trace && worker.arrived == old(worker.arrived)
    ensures start <= worker.published
    ensures r.Err? ==> Excused(r.error, worker.files, SomeFault(faults))
    ensures r.Ok? ==> Reports(worker.published[|start|..], r.value.files)
    ensures r.Ok? ==> RoundDone(total, r.value, old(worker.files), worker.files, maxFiles)
  {
    var remaining := Remaining(maxFiles, total);
    ghost var before, first := worker.published, worker.files;
    var batch := ProcessReadyFiles(worker, remaining, handles, faults);
    if batch.Err? { return batch; }
    ReportsJoin(start, before, worker.published, total.files, batch.value.files);
    PassMerged(total, batch.value, first, worker.files, maxFiles);
    return Ok(total.Merge(batch.value));
  }

  function Remaining(maxFiles: Option<nat>, total: Tally): Option<nat>
    requires maxFiles.Some? ==> total.processed < maxFiles.value
  {
    if maxFiles.Some? then Some(maxFiles.value - total.processed) else None
  }

  /** What one round makes of the totals: either the limit is reached, or no ready file is left. */
  ghost predicate RoundDone(total: Tally, total': Tally, first: Files, files: Files, maxFiles: Option<nat>) {
    && total'.Consistent() && total.files <= total'.files
    && (if maxFiles.Some? && total'.processed >= maxFiles.value then total'.processed == maxFiles.value else NothingReady(files))
    && (total.files == [] ==> Covers(total'.files, first, maxFiles) && CountFits(total'.processed, first, maxFiles))
  }

  lemma PassMerged(total: Tally, batch: Tally, first: Files, files: Files, maxFiles: Option<nat>)
    requires total.Consistent() && batch.Consistent()
    requires maxFiles.Some? ==> total.processed < maxFiles.value && batch.processed <= maxFiles.value - total.processed
    requires maxFiles.None? || batch.processed < maxFiles.value - total.processed ==> NothingReady(files)
    requires forall ready :: IsReadyList(first, ready) ==>
               Passed(first, files, batch.files, ready[..Least(Remaining(maxFiles, total), |ready|)])
    ensures RoundDone(total, total.Merge(batch), first, files, maxFiles)
  {
    MergeIsConsistent(total, batch);
    if total.files == [] { FirstPassMerged(total, batch, first, files, maxFiles); }
  }

  lemma FirstPassMerged(total: Tally, batch: Tally, first: Files, files: Files, maxFiles: Option<nat>)
    requires total.Consistent() && batch.processed == |batch.files| && total.files == []
    requires maxFiles.Some? ==> total.processed < maxFiles.value
    requires forall ready :: IsReadyList(first, ready) ==>
               Passed(first, files, batch.files, ready[..Least(Remaining(maxFiles, total), |ready|)])
    ensures Covers(total.Merge(batch).files, first, maxFiles) && CountFits(total.Merge(batch).processed, first, maxFiles)
  {
    assert total.files + batch.files == batch.files;
    FirstPassCovers(batch.files, first, files, maxFiles);
  }

  lemma FirstPassCovers(views: seq<FileView>, files: Files, later: Files, limit: Option<nat>)
    requires forall ready :: IsReadyList(files, ready) ==> Passed(files, later, views, ready[..Least(limit, |ready|)])
    ensures Covers(views, files, limit) && CountFits(|views|, files, limit)
  {
    forall ready | IsReadyList(files, ready)
      ensures var n := Least(limit, |ready|); n == |views| && ViewsOf(views[..n], ready[..n])
    {
      assert Passed(files, later, views, ready[..Least(limit, |ready|)]);
      assert views[..|views|] == views;
    }
  }

  /** What others do during one sleep. */
  method LetHappen(worker: Worker, events: seq<Action>)
    requires worker.Valid() && worker.phase.Idle?
    modifies worker`files, worker`arrived, worker`trace
    ensures worker.Valid() && worker.phase.Idle? && old(worker.trace) <= worker.trace
    ensures worker.published == old(worker.published) && old(worker.arrived) <= worker.arrived
    ensures Offered(events, worker.arrived, worker.trace)
    ensures forall id :: id in worker.arrived ==> id in old(worker.arrived) || Offers(events, id)
  {
    for i := 0 to |events|
      invariant worker.Valid() && worker.phase.Idle? && old(worker.trace) <= worker.trace
      invariant old(worker.arrived) <= worker.arrived
      invariant Offered(events[..i], worker.arrived, worker.trace)
      invariant forall id :: id in worker.arrived ==> id in old(worker.arrived) || Offers(events[..i], id)
    {
      ghost var trace, arrived := worker.trace, worker.arrived;
      worker.Happen(events[i]);
      OneMoreEvent(events, i, arrived, trace, worker.arrived, worker.trace);
    }
    assert events[..|events|] == events;
  }

  lemma OneMoreEvent(events: seq<Action>, i: nat, arrived: set<nat>, trace: seq<System>, arrived': set<nat>, trace': seq<System>)
    requires i < |events| && Offered(events[..i], arrived, trace) && trace <= trace' && arrived <= arrived'
    requires arrived' <= arrived + if events[i].Arrive? then {events[i].id} else {}
    requires events[i].Arrive? ==> events[i].id in arrived' || Taken(trace, events[i].arriving)
    ensures Offered(events[..i + 1], arrived', trace')
    ensures forall id :: id in arrived' && id !in arrived ==> Offers(events[..i + 1], id)
    ensures forall id :: Offers(events[..i], id) ==> Offers(events[..i + 1], id)
  {
    var now := events[..i + 1];
    assert now[i] == events[i];
    OfferedGrows([events[i]], arrived', trace, arrived', trace');
    OfferedGrows(events[..i], arrived, trace, arrived', trace');
    forall k | 0 <= k < |now| && now[k].Arrive? ensures now[k].id in arrived' || Taken(trace', now[k].arriving) {
      if k < i { assert events[..i][k] == now[k]; } else { assert [events[i]][0] == now[k]; }
    }
    forall id | Offers(events[..i], id) ensures Offers(now, id) {
      var k :| 0 <= k < i && events[..i][k].Arrive? && events[..i][k].id == id;
      assert now[k] == events[..i][k];
    }
  }
}

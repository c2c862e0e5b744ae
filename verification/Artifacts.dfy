/** Streamed artifacts: append and replace chunks, versions, kinds, and the exported payload. A `string`
    here is UTF-8 text, one character for each byte. */
module Artifacts {
  import opened Common

  const I64_MAX: nat := 0x7FFF_FFFF_FFFF_FFFF
  const MAX_NAME: nat := 512
  const MAX_MIME: nat := 255

  datatype PartContent = Raw(bytes: seq<int>) | Url(url: string) | Data(value: string) | Text(text: string)

  datatype Part = Part(content: PartContent, mediaType: Option<string>)

  datatype Artifact = Artifact(
    id: string, name: Option<string>, description: Option<string>,
    metadata: Option<string>, extensions: Option<string>, parts: seq<Part>)

  datatype ArtifactKind = Unknown | TextKind | Json | File | Bytes {
    function Priority(): nat {
      match this case Unknown => 0 case TextKind => 1 case Json => 2 case File => 3 case Bytes => 4
    }
  }

  datatype ArtifactRecord = ArtifactRecord(
    taskId: string, contextId: string, name: Option<string>, mimeType: Option<string>,
    kind: ArtifactKind, version: nat, content: Option<Artifact>)

  /** Checks decided outside the model: identifiers are well formed, and the task and context are stored. */
  datatype References = References(idsOk: bool, rowsOk: bool)

  datatype Update = Update(taskId: string, contextId: string, artifact: Artifact, append: Option<bool>, refs: References) {
    predicate Appends() { append == Some(true) }
  }

  type Store = map<string, ArtifactRecord>

  datatype ArtifactError =
    | BadIdentifier | NoInlineContent | EmptyName | NameTooLong | EmptyMime | MimeTooLong | VersionTooLarge | UnknownTask

  predicate SomePart(parts: seq<Part>, p: PartContent -> bool) {
    exists i :: 0 <= i < |parts| && p(parts[i].content)
  }

  function InferKind(parts: seq<Part>): ArtifactKind {
    if SomePart(parts, (c: PartContent) => c.Raw?) then Bytes
    else if SomePart(parts, (c: PartContent) => c.Url?) then File
    else if SomePart(parts, (c: PartContent) => c.Data?) then Json
    else if SomePart(parts, (c: PartContent) => c.Text?) then TextKind
    else Unknown
  }

  function PrimaryMime(parts: seq<Part>): Option<string> {
    FirstSome(Map((p: Part) => p.mediaType, parts))
  }

  function Merged(existing: Artifact, update: Artifact): Artifact {
    existing.(parts := existing.parts + update.parts,
              name := OrElse(update.name, existing.name),
              description := OrElse(update.description, existing.description),
              metadata := OrElse(update.metadata, existing.metadata),
              extensions := OrElse(update.extensions, existing.extensions))
  }

  function NextVersion(existing: Option<ArtifactRecord>): nat {
    if existing.None? then 1 else SaturatingSucc(existing.value.version)
  }

  function RecordFor(taskId: string, contextId: string, artifact: Artifact, version: nat): ArtifactRecord {
    ArtifactRecord(taskId, contextId, artifact.name, PrimaryMime(artifact.parts), InferKind(artifact.parts),
                   if version < 1 then 1 else version, Some(artifact))
  }

  /** The store's own checks. */
  function Rejection(record: ArtifactRecord): Option<ArtifactError> {
    if record.name == Some("") then Some(EmptyName)
    else if record.name.Some? && |record.name.value| > MAX_NAME then Some(NameTooLong)
    else if record.mimeType == Some("") then Some(EmptyMime)
    else if record.mimeType.Some? && |record.mimeType.value| > MAX_MIME then Some(MimeTooLong)
    else if record.version > I64_MAX then Some(VersionTooLarge)
    else None
  }

  /** The row an update asks for. */
  function Wanted(existing: Option<ArtifactRecord>, u: Update): Result<ArtifactRecord, ArtifactError> {
    if u.Appends() && existing.Some? && existing.value.content.None? then Err(NoInlineContent)
    else
      var artifact := if u.Appends() && existing.Some? then Merged(existing.value.content.value, u.artifact) else u.artifact;
      Ok(RecordFor(u.taskId, u.contextId, artifact, NextVersion(existing)))
  }

  function Get(store: Store, id: string): Option<ArtifactRecord> {
    if id in store then Some(store[id]) else None
  }

  function Upserted(record: ArtifactRecord, rowsOk: bool): Result<ArtifactRecord, ArtifactError> {
    var rejection := Rejection(record);
    if rejection.Some? then Err(rejection.value) else if rowsOk then Ok(record) else Err(UnknownTask)
  }

  function Persisted(store: Store, u: Update): Result<ArtifactRecord, ArtifactError> {
    if !u.refs.idsOk then Err(BadIdentifier)
    else
      var wanted := Wanted(Get(store, u.artifact.id), u);
      if wanted.Err? then wanted else Upserted(wanted.value, u.refs.rowsOk)
  }

  function Stored(store: Store, u: Update): Store {
    var r := Persisted(store, u);
    if r.Ok? then store[u.artifact.id := r.value] else store
  }

  class ArtifactStore {
    var rows: Store

    constructor ()
      ensures rows == map[]
    {
      rows := map[];
    }

    method UpsertArtifact(id: string, record: ArtifactRecord, rowsOk: bool) returns (r: Result<ArtifactRecord, ArtifactError>)
      modifies this
      ensures r == Upserted(record, rowsOk)
      ensures rows == if r.Ok? then old(rows)[id := record] else old(rows)
    {
      var rejection := Rejection(record);
      if rejection.Some? { return Err(rejection.value); }
      if !rowsOk { return Err(UnknownTask); }
      rows := rows[id := record];
      return Ok(record);
    }

    method PersistArtifactUpdate(u: Update) returns (r: Result<ArtifactRecord, ArtifactError>)
      modifies this
      ensures r == Persisted(old(rows), u) && rows == Stored(old(rows), u)
    {
      if !u.refs.idsOk { return Err(BadIdentifier); }
      var id := u.artifact.id;
      var existing := Get(rows, id);
      var version := NextVersion(existing);
      var artifact := u.artifact;
      if u.Appends() && existing.Some? {
        if existing.value.content.None? { return Err(NoInlineContent); }
        artifact := MergeIncremental(existing.value.content.value, u.artifact);
      }
      r := UpsertArtifact(id, RecordFor(u.taskId, u.contextId, artifact, version), u.refs.rowsOk);
    }

    static method MergeIncremental(existing: Artifact, update: Artifact) returns (merged: Artifact)
      ensures merged == Merged(existing, update)
    {
      merged := existing;
      merged := merged.(parts := merged.parts + update.parts);
      if update.name.Some? { merged := merged.(name := update.name); }
      if update.description.Some? { merged := merged.(description := update.description); }
      if update.metadata.Some? { merged := merged.(metadata := update.metadata); }
      if update.extensions.Some? { merged := merged.(extensions := update.extensions); }
    }

    /** All the artifacts of a task, in one transaction: a failure leaves the rows as they were. */
    method PersistTaskArtifacts(taskId: string, contextId: string, artifacts: seq<Artifact>, refs: Artifact -> References)
      returns (error: Option<ArtifactError>)
      modifies this
      ensures var updates := TaskUpdates(taskId, contextId, artifacts, refs);
              && (error.None? <==> AllAccepted(old(rows), updates))
              && rows == if error.None? then After(old(rows), updates) else old(rows)
    {
      ghost var updates := TaskUpdates(taskId, contextId, artifacts, refs);
      var before := rows;
      for i := 0 to |artifacts|
        invariant AllAccepted(before, updates[..i]) && rows == After(before, updates[..i])
      {
        assert updates[..i + 1] == updates[..i] + [updates[i]];
        AfterSnoc(before, updates[..i], updates[i]);
        ReplacementPersisted(rows, updates[i]);
        var r: Result<ArtifactRecord, ArtifactError> := Err(BadIdentifier);
        if refs(artifacts[i]).idsOk {
          var version := NextVersion(Get(rows, artifacts[i].id));
          r := UpsertArtifact(artifacts[i].id, RecordFor(taskId, contextId, artifacts[i], version), refs(artifacts[i]).rowsOk);
        }
        if r.Err? {
          rows := before;
          RejectionPersists(before, updates, i + 1);
          return Some(r.error);
        }
      }
      assert updates[..|artifacts|] == updates;
      return None;
    }
  }

  // ----- Runs -----

  function TaskUpdates(taskId: string, contextId: string, artifacts: seq<Artifact>, refs: Artifact -> References): (us: seq<Update>)
    ensures |us| == |artifacts|
  {
    seq(|artifacts|, i requires 0 <= i < |artifacts| => Update(taskId, contextId, artifacts[i], None, refs(artifacts[i])))
  }

  function After(start: Store, updates: seq<Update>): Store {
    if updates == [] then start else Stored(After(start, updates[..|updates| - 1]), updates[|updates| - 1])
  }

  predicate AllAccepted(start: Store, updates: seq<Update>) {
    updates != [] ==>
      var init := updates[..|updates| - 1];
      AllAccepted(start, init) && Persisted(After(start, init), updates[|updates| - 1]).Ok?
  }

  lemma AfterSnoc(start: Store, updates: seq<Update>, u: Update)
    ensures After(start, updates + [u]) == Stored(After(start, updates), u)
    ensures AllAccepted(start, updates + [u]) <==> AllAccepted(start, updates) && Persisted(After(start, updates), u).Ok?
  {
    assert (updates + [u])[..|updates|] == updates;
  }

  lemma ReplacementPersisted(store: Store, u: Update)
    requires !u.Appends()
    ensures var record := RecordFor(u.taskId, u.contextId, u.artifact, NextVersion(Get(store, u.artifact.id)));
            Persisted(store, u) == if u.refs.idsOk then Upserted(record, u.refs.rowsOk) else Err(BadIdentifier)
  {
  }

  lemma {:induction false} RejectionPersists(start: Store, updates: seq<Update>, n: nat)
    requires n <= |updates| && !AllAccepted(start, updates[..n])
    ensures !AllAccepted(start, updates)
    decreases |updates| - n
  {
    if n < |updates| {
      assert updates[..n + 1][..n] == updates[..n];
      RejectionPersists(start, updates, n + 1);
    } else {
      assert updates[..n] == updates;
    }
  }

  /** The accepted updates of one artifact, on a run from an empty store. */
  function Accepted(updates: seq<Update>, id: string): seq<Update> {
    if updates == [] then []
    else
      var init, u := updates[..|updates| - 1], updates[|updates| - 1];
      Accepted(init, id) + if u.artifact.id == id && Persisted(After(map[], init), u).Ok? then [u] else []
  }

  /** The updates since the last one that replaced the artifact. */
  function SinceReset(own: seq<Update>): (r: seq<Update>)
    ensures own != [] ==> r != []
  {
    if own == [] then []
    else
      var last := own[|own| - 1];
      if last.Appends() then SinceReset(own[..|own| - 1]) + [last] else [last]
  }

  function AllParts(own: seq<Update>): seq<Part> {
    if own == [] then [] else AllParts(own[..|own| - 1]) + own[|own| - 1].artifact.parts
  }

  /** The artifact a stream of accepted updates denotes. */
  function Denoted(own: seq<Update>): Artifact
    requires own != []
  {
    var live := SinceReset(own);
    Artifact(
      live[0].artifact.id,
      LastSome(Map((u: Update) => u.artifact.name, live)),
      LastSome(Map((u: Update) => u.artifact.description, live)),
      LastSome(Map((u: Update) => u.artifact.metadata, live)),
      LastSome(Map((u: Update) => u.artifact.extensions, live)),
      AllParts(live))
  }

  function RowOf(own: seq<Update>): ArtifactRecord
    requires own != []
  {
    var last := own[|own| - 1];
    RecordFor(last.taskId, last.contextId, Denoted(own), |own|)
  }

  lemma DenotedReset(own: seq<Update>, u: Update)
    requires own == [] || !u.Appends()
    ensures Denoted(own + [u]) == u.artifact
  {
    assert (own + [u])[..|own|] == own;
    assert SinceReset(own + [u]) == [u] by { assert [] + [u] == [u]; }
    SummarizedOne((u: Update) => u.artifact.name, u);
    SummarizedOne((u: Update) => u.artifact.description, u);
    SummarizedOne((u: Update) => u.artifact.metadata, u);
    SummarizedOne((u: Update) => u.artifact.extensions, u);
    AllPartsOne(u);
  }

  lemma AllPartsOne(u: Update)
    ensures AllParts([u]) == u.artifact.parts
  {
    assert [u][..0] == [];
    assert AllParts([]) + u.artifact.parts == u.artifact.parts;
  }

  lemma DenotedAppend(own: seq<Update>, u: Update)
    requires own != [] && u.Appends()
    ensures Denoted(own + [u]) == Merged(Denoted(own), u.artifact)
  {
    var live := SinceReset(own);
    assert (own + [u])[..|own|] == own && SinceReset(own + [u]) == live + [u];
    SummarizedSnoc((u: Update) => u.artifact.name, live, u);
    SummarizedSnoc((u: Update) => u.artifact.description, live, u);
    SummarizedSnoc((u: Update) => u.artifact.metadata, live, u);
    SummarizedSnoc((u: Update) => u.artifact.extensions, live, u);
    assert (live + [u])[..|live|] == live;
  }

  function RowIfAny(own: seq<Update>): Option<ArtifactRecord> {
    if own == [] then None else Some(RowOf(own))
  }

  /** The row an update asks for is the one the longer stream denotes. */
  lemma WantedRow(own: seq<Update>, u: Update)
    requires |own| <= I64_MAX
    ensures Wanted(RowIfAny(own), u) == Ok(RowOf(own + [u]))
  {
    if own == [] || !u.Appends() { DenotedReset(own, u); } else { DenotedAppend(own, u); }
    WantedFrom(RowIfAny(own), u, Denoted(own + [u]), |own|);
  }

  lemma WantedFrom(row: Option<ArtifactRecord>, u: Update, next: Artifact, n: nat)
    requires n <= I64_MAX && (row.None? ==> n == 0)
    requires row.Some? ==> row.value.content.Some? && row.value.version == n
    requires next == if u.Appends() && row.Some? then Merged(row.value.content.value, u.artifact) else u.artifact
    ensures Wanted(row, u) == Ok(RecordFor(u.taskId, u.contextId, next, n + 1))
  {
  }

  /** After any updates each row is what its own accepted updates denote, with their number as version. */
  lemma {:induction false} StreamFolds(updates: seq<Update>, id: string)
    ensures var own := Accepted(updates, id);
            |own| <= I64_MAX && Get(After(map[], updates), id) == RowIfAny(own)
  {
    if updates != [] {
      var init, u := updates[..|updates| - 1], updates[|updates| - 1];
      StreamFolds(init, id);
      var own := Accepted(init, id);
      if u.artifact.id == id {
        StreamStep(After(map[], init), own, u);
      }
      assert own + [] == own;
    }
  }

  lemma StreamStep(store: Store, own: seq<Update>, u: Update)
    requires |own| <= I64_MAX && Get(store, u.artifact.id) == RowIfAny(own)
    ensures Persisted(store, u).Ok? ==> |own| < I64_MAX && Persisted(store, u).value == RowOf(own + [u])
    ensures Persisted(store, u).Ok? <==> Rejection(RowOf(own + [u])).None? && u.refs == References(true, true)
  {
    WantedRow(own, u);
    var row := RowOf(own + [u]);
    assert row.version == |own| + 1;
    PersistedRow(store, u, row);
  }

  lemma PersistedRow(store: Store, u: Update, row: ArtifactRecord)
    requires Wanted(Get(store, u.artifact.id), u) == Ok(row)
    ensures Persisted(store, u) == if u.refs.idsOk then Upserted(row, u.refs.rowsOk) else Err(BadIdentifier)
    ensures Rejection(row).None? ==> row.version <= I64_MAX
  {
  }

  /** An optional text the store takes: not empty and not too long. */
  predicate FitsColumn(text: Option<string>, max: nat) {
    text.Some? ==> 0 < |text.value| <= max
  }

  lemma RejectionMeaning(record: ArtifactRecord)
    ensures Rejection(record).None? <==>
            FitsColumn(record.name, MAX_NAME) && FitsColumn(record.mimeType, MAX_MIME) && record.version <= I64_MAX
  {
    assert forall text: Option<string> :: text == Some("") <==> text.Some? && |text.value| == 0;
  }

  /** An update is refused only for a bad or unknown reference, an empty or long name or media type, or when
      the version counter is used up. */
  lemma AcceptedExactly(updates: seq<Update>, u: Update)
    ensures var own := Accepted(updates, u.artifact.id);
            var denoted := Denoted(own + [u]);
            Persisted(After(map[], updates), u).Ok? <==>
              && u.refs == References(true, true)
              && FitsColumn(denoted.name, MAX_NAME) && FitsColumn(PrimaryMime(denoted.parts), MAX_MIME)
              && |own| < I64_MAX
  {
    var own := Accepted(updates, u.artifact.id);
    StreamFolds(updates, u.artifact.id);
    StreamStep(After(map[], updates), own, u);
    RejectionMeaning(RowOf(own + [u]));
    RowOfFields(own + [u]);
  }

  /** The row shows the denoted artifact: its name, kind and first media type, and the last update's references. */
  lemma RowOfFields(own: seq<Update>)
    requires own != []
    ensures RowOf(own).name == Denoted(own).name && RowOf(own).mimeType == PrimaryMime(Denoted(own).parts)
    ensures RowOf(own).version == |own| && RowOf(own).content == Some(Denoted(own))
    ensures RowOf(own).kind == InferKind(Denoted(own).parts)
    ensures RowOf(own).taskId == own[|own| - 1].taskId && RowOf(own).contextId == own[|own| - 1].contextId
  {
  }

  /** An appended chunk extends the stored parts and replaces only what it gives; any other update replaces the
      whole artifact. */
  lemma AppendOrReplace(store: Store, u: Update)
    requires Persisted(store, u).Ok?
    ensures var content := Persisted(store, u).value.content;
            && content.Some?
            && (u.append == None || u.append == Some(false) || u.artifact.id !in store ==> content.value == u.artifact)
            && (u.append == Some(true) && u.artifact.id in store && store[u.artifact.id].content.Some? ==>
                  var stored, given := store[u.artifact.id].content.value, u.artifact;
                  && content.value.parts == stored.parts + given.parts && content.value.id == stored.id
                  && content.value.name == (if given.name.Some? then given.name else stored.name)
                  && content.value.description == (if given.description.Some? then given.description else stored.description)
                  && content.value.metadata == (if given.metadata.Some? then given.metadata else stored.metadata)
                  && content.value.extensions == (if given.extensions.Some? then given.extensions else stored.extensions))
    ensures Persisted(store, u).value.version ==
            (if u.artifact.id in store then SaturatingSucc(store[u.artifact.id].version) else 1)
  {
  }

  /** Updates of one artifact leave the others alone. */
  lemma {:induction false} OthersUntouched(start: Store, updates: seq<Update>, id: string)
    requires forall i :: 0 <= i < |updates| ==> updates[i].artifact.id != id
    ensures Get(After(start, updates), id) == Get(start, id)
  {
    if updates != [] { OthersUntouched(start, updates[..|updates| - 1], id); }
  }

  // ----- Kinds and payloads -----

  lemma SomePartConcat(xs: seq<Part>, ys: seq<Part>, p: PartContent -> bool)
    ensures SomePart(xs + ys, p) <==> SomePart(xs, p) || SomePart(ys, p)
  {
    if SomePart(xs, p) {
      var i :| 0 <= i < |xs| && p(xs[i].content);
      assert p((xs + ys)[i].content);
    }
    if SomePart(ys, p) {
      var i :| 0 <= i < |ys| && p(ys[i].content);
      assert p((xs + ys)[|xs| + i].content);
    }
  }

  /** The kind of joined parts is the higher of the two. */
  lemma KindOfConcat(xs: seq<Part>, ys: seq<Part>)
    ensures InferKind(xs + ys) == if InferKind(xs).Priority() >= InferKind(ys).Priority() then InferKind(xs) else InferKind(ys)
  {
    SomePartConcat(xs, ys, (c: PartContent) => c.Raw?);
    SomePartConcat(xs, ys, (c: PartContent) => c.Url?);
    SomePartConcat(xs, ys, (c: PartContent) => c.Data?);
    SomePartConcat(xs, ys, (c: PartContent) => c.Text?);
  }

  /** The kind of a single part. */
  lemma KindOfOne(p: Part)
    ensures InferKind([]) == Unknown
    ensures InferKind([p]) == match p.content case Raw(_) => Bytes case Url(_) => File case Data(_) => Json case Text(_) => TextKind
    ensures Unknown.Priority() < TextKind.Priority() < Json.Priority() < File.Priority() < Bytes.Priority()
  {
    assert [p][0] == p;
  }

  /** A stream's kind is the highest kind among its live chunks. */
  lemma {:induction false} KindIsHighest(live: seq<Update>)
    ensures forall i :: 0 <= i < |live| ==> InferKind(AllParts(live)).Priority() >= InferKind(live[i].artifact.parts).Priority()
    ensures InferKind(AllParts(live)) == Unknown || exists i :: 0 <= i < |live| && InferKind(AllParts(live)) == InferKind(live[i].artifact.parts)
  {
    if live != [] {
      var init, last := live[..|live| - 1], live[|live| - 1];
      KindIsHighest(init);
      KindOfConcat(AllParts(init), last.artifact.parts);
      if InferKind(AllParts(live)) != Unknown && InferKind(AllParts(live)) != InferKind(last.artifact.parts) {
        var i :| 0 <= i < |init| && InferKind(AllParts(init)) == InferKind(init[i].artifact.parts);
        assert live[i] == init[i];
      }
    }
  }

  /** What is written to disk; the JSON encodings stay symbolic. */
  datatype Payload =
    | BytesPayload(bytes: seq<int>)
    | TextPayload(text: string)
    | DataPayload(values: seq<string>)
    | UrlPayload(urls: seq<string>)
    | RecordPayload

  function RawBytes(parts: seq<Part>): seq<int> {
    if parts == [] then []
    else RawBytes(parts[..|parts| - 1]) + var c := parts[|parts| - 1].content; if c.Raw? then c.bytes else []
  }

  function TextOf(parts: seq<Part>): string {
    if parts == [] then ""
    else TextOf(parts[..|parts| - 1]) + var c := parts[|parts| - 1].content; if c.Text? then c.text else ""
  }

  function Selected(parts: seq<Part>, pick: PartContent -> Option<string>): seq<string> {
    if parts == [] then []
    else
      var picked := pick(parts[|parts| - 1].content);
      Selected(parts[..|parts| - 1], pick) + if picked.Some? then [picked.value] else []
  }

  function ArtifactPayload(parts: seq<Part>): Payload {
    if SomePart(parts, (c: PartContent) => c.Raw?) then BytesPayload(RawBytes(parts))
    else if SomePart(parts, (c: PartContent) => c.Text?) then TextPayload(TextOf(parts))
    else if SomePart(parts, (c: PartContent) => c.Data?) then
      DataPayload(Selected(parts, (c: PartContent) => if c.Data? then Some(c.value) else None))
    else if SomePart(parts, (c: PartContent) => c.Url?) then
      UrlPayload(Selected(parts, (c: PartContent) => if c.Url? then Some(c.url) else None))
    else RecordPayload
  }

  /** The media type is that of the first part that has one. */
  lemma PrimaryMimeIsFirst(parts: seq<Part>)
    ensures var r := PrimaryMime(parts);
            if r.Some? then exists k :: 0 <= k < |parts| && parts[k].mediaType == r && forall j :: 0 <= j < k ==> parts[j].mediaType.None?
            else forall j :: 0 <= j < |parts| ==> parts[j].mediaType.None?
  {
    var types := Map((p: Part) => p.mediaType, parts);
    FirstSomeIsFirst(types);
    assert forall j :: 0 <= j < |parts| ==> types[j] == parts[j].mediaType;
  }

  /** The exported bytes and values of joined parts are joined; parts of another form add nothing. */
  lemma {:induction false} RawConcat(xs: seq<Part>, ys: seq<Part>)
    ensures RawBytes(xs + ys) == RawBytes(xs) + RawBytes(ys)
  {
    if ys == [] {
      assert xs + ys == xs;
    } else {
      var init, last := ys[..|ys| - 1], ys[|ys| - 1];
      RawConcat(xs, init);
      assert (xs + ys)[..|xs + ys| - 1] == xs + init;
      Regroup(RawBytes(xs), RawBytes(init), if last.content.Raw? then last.content.bytes else []);
    }
  }

  lemma {:induction false} SelectedConcat(xs: seq<Part>, ys: seq<Part>, pick: PartContent -> Option<string>)
    ensures Selected(xs + ys, pick) == Selected(xs, pick) + Selected(ys, pick)
  {
    if ys == [] {
      assert xs + ys == xs;
    } else {
      var init, last := ys[..|ys| - 1], ys[|ys| - 1];
      SelectedConcat(xs, init, pick);
      assert (xs + ys)[..|xs + ys| - 1] == xs + init;
      Regroup(Selected(xs, pick), Selected(init, pick), if pick(last.content).Some? then [pick(last.content).value] else []);
    }
  }

  lemma SelectedOne(p: Part, pick: PartContent -> Option<string>)
    ensures Selected([p], pick) == if pick(p.content).Some? then [pick(p.content).value] else []
  {
    assert [p][..0] == [] && [p][0] == p;
  }

  /** The payload of a single part. */
  lemma PayloadOfOne(p: Part)
    ensures ArtifactPayload([]) == RecordPayload
    ensures ArtifactPayload([p]) ==
            match p.content
            case Raw(bytes) => BytesPayload(bytes)
            case Text(text) => TextPayload(text)
            case Data(value) => DataPayload([value])
            case Url(url) => UrlPayload([url])
    ensures RawBytes([p]) == (if p.content.Raw? then p.content.bytes else [])
    ensures TextOf([p]) == (if p.content.Text? then p.content.text else "")
  {
    assert [p][..0] == [] && [p][0] == p;
    var data := (c: PartContent) => if c.Data? then Some(c.value) else None;
    var links := (c: PartContent) => if c.Url? then Some(c.url) else None;
    SelectedOne(p, data);
    SelectedOne(p, links);
    match p.content
    case Raw(bytes) => assert RawBytes([p]) == [] + bytes == bytes; assert ArtifactPayload([p]) == BytesPayload(bytes);
    case Text(text) => assert TextOf([p]) == "" + text == text; assert ArtifactPayload([p]) == TextPayload(text);
    case Data(value) => assert data(p.content) == Some(value); assert ArtifactPayload([p]) == DataPayload([value]);
    case Url(url) => assert links(p.content) == Some(url); assert ArtifactPayload([p]) == UrlPayload([url]);
  }

  /** Bytes come before text, text before data, data before links. */
  lemma PayloadForms(parts: seq<Part>)
    ensures var bytes, text := SomePart(parts, (c: PartContent) => c.Raw?), SomePart(parts, (c: PartContent) => c.Text?);
            var data, links := SomePart(parts, (c: PartContent) => c.Data?), SomePart(parts, (c: PartContent) => c.Url?);
            && (ArtifactPayload(parts).BytesPayload? <==> bytes)
            && (ArtifactPayload(parts).TextPayload? <==> text && !bytes)
            && (ArtifactPayload(parts).DataPayload? <==> data && !text && !bytes)
            && (ArtifactPayload(parts).UrlPayload? <==> links && !data && !text && !bytes)
  {
  }

  /** Joined parts whose payloads have the same form export the joined payloads. */
  lemma PayloadConcat(xs: seq<Part>, ys: seq<Part>)
    ensures var x, y, joined := ArtifactPayload(xs), ArtifactPayload(ys), ArtifactPayload(xs + ys);
            && (x.BytesPayload? && y.BytesPayload? ==> joined == BytesPayload(x.bytes + y.bytes))
            && (x.TextPayload? && y.TextPayload? ==> joined == TextPayload(x.text + y.text))
            && (x.DataPayload? && y.DataPayload? ==> joined == DataPayload(x.values + y.values))
            && (x.UrlPayload? && y.UrlPayload? ==> joined == UrlPayload(x.urls + y.urls))
  {
    SomePartConcat(xs, ys, (c: PartContent) => c.Raw?);
    SomePartConcat(xs, ys, (c: PartContent) => c.Text?);
    SomePartConcat(xs, ys, (c: PartContent) => c.Data?);
    SomePartConcat(xs, ys, (c: PartContent) => c.Url?);
    RawConcat(xs, ys);
    TextOfConcat(xs, ys);
    SelectedConcat(xs, ys, (c: PartContent) => if c.Data? then Some(c.value) else None);
    SelectedConcat(xs, ys, (c: PartContent) => if c.Url? then Some(c.url) else None);
  }

  lemma {:induction false} TextOfConcat(xs: seq<Part>, ys: seq<Part>)
    ensures TextOf(xs + ys) == TextOf(xs) + TextOf(ys)
  {
    if ys == [] {
      assert xs + ys == xs;
    } else {
      var init, last := ys[..|ys| - 1], ys[|ys| - 1];
      TextOfConcat(xs, init);
      assert (xs + ys)[..|xs + ys| - 1] == xs + init;
      var tail := if last.content.Text? then last.content.text else "";
      Regroup(TextOf(xs), TextOf(init), tail);
    }
  }

  function ChunkTexts(live: seq<Update>): string {
    if live == [] then "" else ChunkTexts(live[..|live| - 1]) + TextOf(live[|live| - 1].artifact.parts)
  }

  lemma {:induction false} TextIsConcatenated(live: seq<Update>)
    ensures TextOf(AllParts(live)) == ChunkTexts(live)
  {
    if live != [] {
      TextIsConcatenated(live[..|live| - 1]);
      TextOfConcat(AllParts(live[..|live| - 1]), live[|live| - 1].artifact.parts);
    }
  }

  /** A text artifact exports exactly the texts of its live chunks, in order. */
  lemma TextStreamPayload(updates: seq<Update>, id: string)
    requires Accepted(updates, id) != [] && RowOf(Accepted(updates, id)).kind == TextKind
    ensures var row := Get(After(map[], updates), id);
            && row.Some? && row.value.content.Some?
            && ArtifactPayload(row.value.content.value.parts) == TextPayload(ChunkTexts(SinceReset(Accepted(updates, id))))
  {
    StreamFolds(updates, id);
    TextIsConcatenated(SinceReset(Accepted(updates, id)));
  }

  /** The payload form that a kind promises. */
  predicate Fits(payload: Payload, kind: ArtifactKind) {
    match kind
    case Bytes => payload.BytesPayload?
    case File => payload.UrlPayload?
    case Json => payload.DataPayload?
    case TextKind => payload.TextPayload?
    case Unknown => payload.RecordPayload?
  }

  predicate IsUrl(c: PartContent) { c.Url? }
  predicate IsData(c: PartContent) { c.Data? }
  predicate IsText(c: PartContent) { c.Text? }

  /** Kinds and payloads rank part contents differently: what is exported is of the recorded kind exactly
      when there are raw bytes, or at most one of text, data and links. */
  lemma PayloadFitsKindExactly(parts: seq<Part>)
    ensures Fits(ArtifactPayload(parts), InferKind(parts)) <==>
            || SomePart(parts, (c: PartContent) => c.Raw?)
            || !((SomePart(parts, IsText) && SomePart(parts, IsData))
                 || (SomePart(parts, IsText) && SomePart(parts, IsUrl))
                 || (SomePart(parts, IsData) && SomePart(parts, IsUrl)))
  {
    SamePart(parts, IsUrl, (c: PartContent) => c.Url?);
    SamePart(parts, IsData, (c: PartContent) => c.Data?);
    SamePart(parts, IsText, (c: PartContent) => c.Text?);
  }

  lemma SamePart(parts: seq<Part>, p: PartContent -> bool, q: PartContent -> bool)
    requires forall c :: p(c) == q(c)
    ensures SomePart(parts, p) <==> SomePart(parts, q)
  {
  }

  /** An artifact of links and a caption exports the caption only. */
  lemma CaptionedLinkExportsCaption() returns (parts: seq<Part>)
    ensures InferKind(parts) == File && ArtifactPayload(parts) == TextPayload("caption")
  {
    parts := [Part(Url("https://example.com/report"), None), Part(Text("caption"), None)];
    assert parts[1].content.Text? && parts[0].content.Url?;
    assert parts[..1] == [parts[0]];
    assert TextOf([parts[0]]) == "" by { assert [parts[0]][..0] == []; }
  }
}

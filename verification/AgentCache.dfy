/** The Agent Card cache in the agent registry: conditional fetches, revalidation, and the registry
    operations that run in between. HTTP conditions follow RFC 9110, sections 13.1.2, 13.1.3 and 15.4.5. */
module AgentCache {
  import opened Common

  datatype Validators = Validators(etag: Option<string>, lastModified: Option<int>)

  /** A registry row; `settings` stands for the fields the cache does not read. */
  datatype AgentRecord = AgentRecord(
    alias: string, baseUrl: string, settings: string, readOnly: bool,
    card: Option<string>, etag: Option<string>, lastModified: Option<int>, fetchedAt: Option<int>)

  datatype Response =
    | Full(card: string, validators: Validators)
    | NotModified(validators: Validators)
    | Failure

  datatype AgentError =
    | InvalidInput | AlreadyExists | NotRegistered | ReadOnly | SameAlias | StorageFailure
    | TransportFailure | NotModifiedWithoutCache | MalformedCard | NoInterface

  type Agents = map<string, AgentRecord>

  // ----- Conditional fetch -----

  function ValidatorsFromRecord(record: AgentRecord): Option<Validators> {
    if record.etag.None? && record.lastModified.None? then None
    else Some(Validators(record.etag, record.lastModified))
  }

  function MergeValidators(record: AgentRecord, updated: Validators): Validators {
    Validators(OrElse(updated.etag, record.etag), OrElse(updated.lastModified, record.lastModified))
  }

  function WithCard(record: AgentRecord, card: string, validators: Validators, now: int): AgentRecord {
    record.(card := Some(card), etag := validators.etag, lastModified := validators.lastModified, fetchedAt := Some(now))
  }

  /** What is made of a card: whether it still parses, and whether an interface can be negotiated on it. */
  datatype Reader = Reader(parses: string -> bool, usable: string -> bool)

  /** Why a cached card cannot be used, if it cannot. */
  function CachedComplaint(card: string, reader: Reader): Option<AgentError> {
    if !reader.parses(card) then Some(MalformedCard) else if !reader.usable(card) then Some(NoInterface) else None
  }

  function Written(record: AgentRecord, storageOk: bool): Result<AgentRecord, AgentError> {
    if storageOk then Ok(record) else Err(StorageFailure)
  }

  /** The row after one exchange with the endpoint; a full response carries a card that parses. */
  function Exchange(record: AgentRecord, response: Response, reader: Reader, storageOk: bool, now: int): Result<AgentRecord, AgentError> {
    match response
    case Failure => Err(TransportFailure)
    case Full(card, validators) =>
      if reader.usable(card) then Written(WithCard(record, card, validators, now), storageOk) else Err(NoInterface)
    case NotModified(validators) =>
      if record.card.None? then Err(NotModifiedWithoutCache)
      else
        var complaint := CachedComplaint(record.card.value, reader);
        if complaint.Some? then Err(complaint.value)
        else Written(WithCard(record, record.card.value, MergeValidators(record, validators), now), storageOk)
  }

  datatype LoadMode = CacheOnly | FetchIfMissing | Refresh

  /** Capability loading does not negotiate. */
  function Parsing(parses: string -> bool): Reader {
    Reader(parses, card => true)
  }

  function Loaded(record: AgentRecord, mode: LoadMode, respond: Option<Validators> -> Response, parses: string -> bool,
                  storageOk: bool, now: int): Result<AgentRecord, AgentError> {
    if mode != Refresh && record.card.Some? then
      if parses(record.card.value) then Ok(record) else Err(MalformedCard)
    else if mode == CacheOnly then Ok(record)
    else Exchange(record, respond(ValidatorsFromRecord(record)), Parsing(parses), storageOk, now)
  }

  /** Interface resolution before a send; an uncached card is fetched unconditionally. */
  function Resolved(record: AgentRecord, respond: Option<Validators> -> Response, reader: Reader,
                    storageOk: bool, now: int): Result<AgentRecord, AgentError> {
    if record.card.Some? then
      var complaint := CachedComplaint(record.card.value, reader);
      if complaint.Some? then Err(complaint.value) else Ok(record)
    else
      var response := respond(None);
      if response.NotModified? then Err(NotModifiedWithoutCache) else Exchange(record, response, reader, storageOk, now)
  }

  // ----- Configuration -----

  /** `ok` tells whether the entry's alias parses and its row can be read and written. */
  datatype AgentConfig = AgentConfig(alias: string, baseUrl: string, settings: string, ok: bool)

  function ConfigAgentUpsert(agent: AgentConfig, existing: Option<AgentRecord>): AgentRecord {
    if existing.Some? && existing.value.baseUrl == agent.baseUrl then
      AgentRecord(agent.alias, agent.baseUrl, agent.settings, true,
                  existing.value.card, existing.value.etag, existing.value.lastModified, existing.value.fetchedAt)
    else AgentRecord(agent.alias, agent.baseUrl, agent.settings, true, None, None, None, None)
  }

  function Lookup(agents: Agents, alias: string): Option<AgentRecord> {
    if alias in agents then Some(agents[alias]) else None
  }

  function Seeded(agents: Agents, config: seq<AgentConfig>): Agents {
    if config == [] then agents
    else
      var before, agent := Seeded(agents, config[..|config| - 1]), config[|config| - 1];
      before[agent.alias := ConfigAgentUpsert(agent, Lookup(before, agent.alias))]
  }

  /** How many entries a sync gets through. */
  function SyncReach(config: seq<AgentConfig>): (n: nat)
    ensures n <= |config| && (n < |config| ==> !config[n].ok)
    ensures forall i :: 0 <= i < n ==> config[i].ok
  {
    if config == [] || !config[0].ok then 0 else SyncReach(config[1..]) + 1
  }

  /** A sync stops at the first bad entry; the rows written before it stay. */
  function Synced(agents: Agents, config: seq<AgentConfig>): Agents {
    Seeded(agents, config[..SyncReach(config)])
  }

  // ----- Registry operations -----

  datatype Operation =
    | Add(alias: string, baseUrl: string, settings: string, inputOk: bool)
    | Remove(alias: string, storageOk: bool)
    | Rename(alias: string, newAlias: string, storageOk: bool)
    | Sync(config: seq<AgentConfig>)
    | Load(alias: string, mode: LoadMode, respond: Option<Validators> -> Response, parses: string -> bool, storageOk: bool, now: int)
    | Fetch(alias: string, respond: Option<Validators> -> Response, reader: Reader, storageOk: bool, now: int)
    | ResolveSend(alias: string, respond: Option<Validators> -> Response, reader: Reader, storageOk: bool, now: int)

  function Stored(agents: Agents, alias: string, outcome: Result<AgentRecord, AgentError>): Agents {
    if outcome.Ok? then agents[alias := outcome.value] else agents
  }

  /** The error an operation reports, if any. */
  function Complaint(agents: Agents, op: Operation): Option<AgentError> {
    match op
    case Add(alias, _, _, inputOk) => if alias in agents then Some(AlreadyExists) else if !inputOk then Some(InvalidInput) else None
    case Remove(alias, storageOk) =>
      if alias !in agents then Some(NotRegistered)
      else if agents[alias].readOnly then Some(ReadOnly)
      else if !storageOk then Some(StorageFailure) else None
    case Rename(alias, newAlias, storageOk) =>
      if alias == newAlias then Some(SameAlias)
      else if alias !in agents then Some(NotRegistered)
      else if agents[alias].readOnly then Some(ReadOnly)
      else if newAlias in agents then Some(AlreadyExists)
      else if !storageOk then Some(StorageFailure) else None
    case Sync(config) => if SyncReach(config) < |config| then Some(InvalidInput) else None
    case _ =>
      if op.alias !in agents then Some(NotRegistered)
      else
        var outcome := CardOutcome(agents[op.alias], op);
        if outcome.Err? then Some(outcome.error) else None
  }

  function CardOutcome(record: AgentRecord, op: Operation): Result<AgentRecord, AgentError>
    requires op.Load? || op.Fetch? || op.ResolveSend?
  {
    match op
    case Load(_, mode, respond, parses, storageOk, now) => Loaded(record, mode, respond, parses, storageOk, now)
    case Fetch(_, respond, reader, storageOk, now) => Exchange(record, respond(ValidatorsFromRecord(record)), reader, storageOk, now)
    case ResolveSend(_, respond, reader, storageOk, now) => Resolved(record, respond, reader, storageOk, now)
  }

  /** The rows after an operation; a failed operation other than a sync changes nothing. */
  function Performed(agents: Agents, op: Operation): Agents {
    if Complaint(agents, op).Some? && !op.Sync? then agents
    else
      match op
      case Add(alias, baseUrl, settings, _) => agents[alias := AgentRecord(alias, baseUrl, settings, false, None, None, None, None)]
      case Remove(alias, _) => agents - {alias}
      case Rename(alias, newAlias, _) => agents[newAlias := agents[alias].(alias := newAlias, readOnly := false)] - {alias}
      case Sync(config) => Synced(agents, config)
      case _ => agents[op.alias := CardOutcome(agents[op.alias], op).value]
  }

  class Registry {
    var agents: Agents

    constructor ()
      ensures agents == map[]
    {
      agents := map[];
    }

    method SyncConfigAgents(config: seq<AgentConfig>) returns (error: Option<AgentError>)
      modifies this
      ensures error == Complaint(old(agents), Sync(config)) && agents == Performed(old(agents), Sync(config))
    {
      for i := 0 to |config|
        invariant i <= SyncReach(config) && agents == Seeded(old(agents), config[..i])
      {
        assert config[..i + 1][..i] == config[..i];
        var agent := config[i];
        if !agent.ok { return Some(InvalidInput); }
        agents := agents[agent.alias := ConfigAgentUpsert(agent, Lookup(agents, agent.alias))];
      }
      return None;
    }

    method AddAgent(alias: string, baseUrl: string, settings: string, inputOk: bool) returns (error: Option<AgentError>)
      modifies this
      ensures var op := Add(alias, baseUrl, settings, inputOk);
              error == Complaint(old(agents), op) && agents == Performed(old(agents), op)
    {
      if alias in agents { return Some(AlreadyExists); }
      if !inputOk { return Some(InvalidInput); }
      agents := agents[alias := AgentRecord(alias, baseUrl, settings, false, None, None, None, None)];
      return None;
    }

    method RemoveAgent(alias: string, storageOk: bool) returns (error: Option<AgentError>)
      modifies this
      ensures error == Complaint(old(agents), Remove(alias, storageOk))
      ensures agents == Performed(old(agents), Remove(alias, storageOk))
    {
      if alias !in agents { return Some(NotRegistered); }
      if agents[alias].readOnly { return Some(ReadOnly); }
      if !storageOk { return Some(StorageFailure); }
      agents := agents - {alias};
      return None;
    }

    method RenameAgent(oldAlias: string, newAlias: string, storageOk: bool) returns (error: Option<AgentError>)
      modifies this
      ensures error == Complaint(old(agents), Rename(oldAlias, newAlias, storageOk))
      ensures agents == Performed(old(agents), Rename(oldAlias, newAlias, storageOk))
    {
      if oldAlias == newAlias { return Some(SameAlias); }
      if oldAlias !in agents { return Some(NotRegistered); }
      var record := agents[oldAlias];
      if record.readOnly { return Some(ReadOnly); }
      if newAlias in agents { return Some(AlreadyExists); }
      if !storageOk { return Some(StorageFailure); }
      agents := agents[newAlias := record.(alias := newAlias, readOnly := false)];
      agents := agents - {oldAlias};
      return None;
    }

    method FetchAndCache(alias: string, respond: Option<Validators> -> Response, reader: Reader, storageOk: bool, now: int)
      returns (r: Result<AgentRecord, AgentError>)
      requires alias in agents && agents[alias].alias == alias
      modifies this
      ensures r == Exchange(old(agents)[alias], respond(ValidatorsFromRecord(old(agents)[alias])), reader, storageOk, now)
      ensures agents == Stored(old(agents), alias, r)
    {
      var record := agents[alias];
      var outcome := respond(ValidatorsFromRecord(record));
      match outcome
      case Failure => return Err(TransportFailure);
      case Full(card, validators) =>
        if !reader.usable(card) { return Err(NoInterface); }
        r := CacheAgentCard(record, card, validators, storageOk, now);
      case NotModified(validators) =>
        if record.card.None? { return Err(NotModifiedWithoutCache); }
        if !reader.parses(record.card.value) { return Err(MalformedCard); }
        if !reader.usable(record.card.value) { return Err(NoInterface); }
        r := CacheAgentCard(record, record.card.value, MergeValidators(record, validators), storageOk, now);
    }

    method CacheAgentCard(record: AgentRecord, card: string, validators: Validators, storageOk: bool, now: int)
      returns (r: Result<AgentRecord, AgentError>)
      modifies this
      ensures r == Written(WithCard(record, card, validators, now), storageOk)
      ensures agents == Stored(old(agents), record.alias, r)
    {
      if !storageOk { return Err(StorageFailure); }
      r := Ok(WithCard(record, card, validators, now));
      agents := agents[record.alias := r.value];
    }

    method LoadAgentCard(alias: string, mode: LoadMode, respond: Option<Validators> -> Response, parses: string -> bool,
                         storageOk: bool, now: int)
      returns (r: Result<AgentRecord, AgentError>)
      requires alias in agents && agents[alias].alias == alias
      modifies this
      ensures r == Loaded(old(agents)[alias], mode, respond, parses, storageOk, now)
      ensures agents == Stored(old(agents), alias, r)
    {
      if mode == CacheOnly || mode == FetchIfMissing {
        if agents[alias].card.Some? && !parses(agents[alias].card.value) { return Err(MalformedCard); }
        if agents[alias].card.Some? || mode == CacheOnly {
          r := Ok(agents[alias]);
          assert agents == Stored(agents, alias, r);
          return;
        }
      }
      r := FetchAndCache(alias, respond, Parsing(parses), storageOk, now);
    }

    method ResolveSendInterface(alias: string, respond: Option<Validators> -> Response, reader: Reader, storageOk: bool, now: int)
      returns (r: Result<AgentRecord, AgentError>)
      requires alias in agents && agents[alias].alias == alias
      modifies this
      ensures r == Resolved(old(agents)[alias], respond, reader, storageOk, now)
      ensures agents == Stored(old(agents), alias, r)
    {
      var record := agents[alias];
      if record.card.Some? {
        if !reader.parses(record.card.value) { return Err(MalformedCard); }
        r := if reader.usable(record.card.value) then Ok(record) else Err(NoInterface);
        assert agents == Stored(agents, alias, r);
        return;
      }
      match respond(None)
      case Failure => return Err(TransportFailure);
      case NotModified(_) => return Err(NotModifiedWithoutCache);
      case Full(card, validators) =>
        if !reader.usable(card) { return Err(NoInterface); }
        r := CacheAgentCard(record, card, validators, storageOk, now);
    }
  }

  // ----- Servers -----

  /** One published state of a card endpoint. */
  datatype Version = Version(card: string, etag: Option<string>, lastModified: Option<int>)

  /** No earlier version with another card can pass for the last one: it neither has the last version's ETag
      (a weak one counts as its strong one), nor was modified at the last version's time or later. */
  predicate LatestLabelled(h: seq<Version>) {
    forall i :: 0 <= i < |h| - 1 && h[i].card != h[|h| - 1].card ==> !PassesFor(h[i], h[|h| - 1])
  }

  predicate PassesFor(earlier: Version, current: Version) {
    ConditionHolds(Validators(earlier.etag, None), current) || ConditionHolds(Validators(None, earlier.lastModified), current)
  }

  /** The validators sent are those of the version; either may be left out. */
  predicate Labels(v: Validators, version: Version) {
    (v.etag.Some? ==> v.etag == version.etag) && (v.lastModified.Some? ==> v.lastModified == version.lastModified)
  }

  /** An entity tag without its weakness mark. */
  function Opaque(tag: string): string {
    if "W/" <= tag then tag[2..] else tag
  }

  lemma WeaknessMark(tag: string)
    ensures Opaque("W/" + tag) == tag
    ensures (tag == "" || tag[0] != 'W') ==> Opaque(tag) == tag
  {
    assert ("W/" + tag)[2..] == tag;
  }

  /** If-None-Match decides when present, by weak comparison; otherwise If-Modified-Since. */
  predicate ConditionHolds(sent: Validators, current: Version) {
    if sent.etag.Some? then current.etag.Some? && Opaque(current.etag.value) == Opaque(sent.etag.value)
    else sent.lastModified.Some? && current.lastModified.Some? && current.lastModified.value <= sent.lastModified.value
  }

  /** An honest answer: the current card, or 304 only to a request whose condition holds. */
  predicate HonestAnswer(h: seq<Version>, sent: Option<Validators>, response: Response) {
    match response
    case Failure => true
    case Full(card, validators) => h != [] && card == h[|h| - 1].card && Labels(validators, h[|h| - 1])
    case NotModified(validators) =>
      h != [] && sent.Some? && ConditionHolds(sent.value, h[|h| - 1]) && Labels(validators, h[|h| - 1])
  }

  ghost predicate HonestServer(h: seq<Version>, respond: Option<Validators> -> Response) {
    forall sent :: HonestAnswer(h, sent, respond(sent))
  }

  // ----- Coherence -----

  /** Whatever is stored was published together at the record's base URL. */
  ghost predicate Coherent(r: AgentRecord, h: seq<Version>) {
    && (r.card.Some? ==> exists i :: 0 <= i < |h| && h[i].card == r.card.value)
    && (r.etag.Some? ==> r.card.Some? && exists i :: 0 <= i < |h| && h[i].etag == r.etag && h[i].card == r.card.value)
    && (r.lastModified.Some? ==>
          r.card.Some? && exists i :: 0 <= i < |h| && h[i].lastModified == r.lastModified && h[i].card == r.card.value)
  }

  /** A condition built from coherent validators holds only when the stored card is still current. */
  lemma ConditionMeansCurrent(r: AgentRecord, h: seq<Version>)
    requires LatestLabelled(h) && h != [] && Coherent(r, h)
    requires ValidatorsFromRecord(r).Some? && ConditionHolds(ValidatorsFromRecord(r).value, h[|h| - 1])
    ensures r.card == Some(h[|h| - 1].card)
  {
    var last := |h| - 1;
    if r.etag.Some? {
      var i :| 0 <= i < |h| && h[i].etag == r.etag && h[i].card == r.card.value;
      assert i < last ==> PassesFor(h[i], h[last]);
    } else {
      var i :| 0 <= i < |h| && h[i].lastModified == r.lastModified && h[i].card == r.card.value;
      assert i < last ==> PassesFor(h[i], h[last]);
    }
  }

  /** One exchange with an honest server: never the 304-without-cache error, and success leaves the
      current card, coherently labelled. */
  lemma ExchangeIsCoherent(r: AgentRecord, h: seq<Version>, response: Response, reader: Reader, storageOk: bool, now: int)
    requires LatestLabelled(h) && Coherent(r, h) && HonestAnswer(h, ValidatorsFromRecord(r), response)
    ensures var outcome := Exchange(r, response, reader, storageOk, now);
            && outcome != Err(NotModifiedWithoutCache)
            && (outcome.Ok? ==> h != [] && outcome.value.card == Some(h[|h| - 1].card) && Coherent(outcome.value, h))
  {
    if response.NotModified? {
      ConditionMeansCurrent(r, h);
      var last := |h| - 1;
      assert h[last].card == r.card.value;
    } else if response.Full? {
      assert h[|h| - 1].card == response.card;
    }
  }

  lemma LoadIsCoherent(r: AgentRecord, h: seq<Version>, op: Operation)
    requires op.Load? || op.Fetch? || op.ResolveSend?
    requires LatestLabelled(h) && Coherent(r, h) && HonestServer(h, op.respond)
    ensures var outcome := CardOutcome(r, op);
            && outcome != Err(NotModifiedWithoutCache)
            && (outcome.Ok? ==> Coherent(outcome.value, h))
            && (outcome.Ok? && (op.Fetch? || (op.Load? && op.mode == Refresh)) ==>
                  h != [] && outcome.value.card == Some(h[|h| - 1].card))
  {
    match op
    case Load(_, mode, respond, parses, storageOk, now) =>
      assert HonestAnswer(h, ValidatorsFromRecord(r), respond(ValidatorsFromRecord(r)));
      ExchangeIsCoherent(r, h, respond(ValidatorsFromRecord(r)), Parsing(parses), storageOk, now);
    case Fetch(_, respond, reader, storageOk, now) =>
      assert HonestAnswer(h, ValidatorsFromRecord(r), respond(ValidatorsFromRecord(r)));
      ExchangeIsCoherent(r, h, respond(ValidatorsFromRecord(r)), reader, storageOk, now);
    case ResolveSend(_, respond, reader, storageOk, now) =>
      assert HonestAnswer(h, None, respond(None));
      if r.card.None? {
        assert ValidatorsFromRecord(r) == None;
        ExchangeIsCoherent(r, h, respond(None), reader, storageOk, now);
      }
  }

  // ----- Runs -----

  /** The registry together with everything every server has published. */
  datatype World = World(agents: Agents, servers: map<string, seq<Version>>)

  function History(w: World, url: string): seq<Version> {
    if url in w.servers then w.servers[url] else []
  }

  datatype Step = Publish(url: string, version: Version) | Operate(op: Operation)

  predicate AllowedPublish(w: World, url: string, version: Version) {
    LatestLabelled(History(w, url) + [version])
  }

  /** Servers never publish a version that an earlier one with another card passes for, and answer honestly. */
  ghost predicate Allowed(w: World, step: Step) {
    match step
    case Publish(url, version) => AllowedPublish(w, url, version)
    case Operate(op) =>
      (op.Load? || op.Fetch? || op.ResolveSend?) && op.alias in w.agents ==>
        HonestServer(History(w, w.agents[op.alias].baseUrl), op.respond)
  }

  function Next(w: World, step: Step): World {
    match step
    case Publish(url, version) => w.(servers := w.servers[url := History(w, url) + [version]])
    case Operate(op) => w.(agents := Performed(w.agents, op))
  }

  function WorldAfter(steps: seq<Step>): World {
    if steps == [] then World(map[], map[]) else Next(WorldAfter(steps[..|steps| - 1]), steps[|steps| - 1])
  }

  ghost predicate AllowedRun(steps: seq<Step>) {
    steps != [] ==> AllowedRun(steps[..|steps| - 1]) && Allowed(WorldAfter(steps[..|steps| - 1]), steps[|steps| - 1])
  }

  ghost predicate AllCoherent(w: World) {
    && (forall url :: url in w.servers ==> LatestLabelled(w.servers[url]))
    && (forall alias :: alias in w.agents ==>
          w.agents[alias].alias == alias && Coherent(w.agents[alias], History(w, w.agents[alias].baseUrl)))
  }

  lemma CoherentGrows(r: AgentRecord, h: seq<Version>, version: Version)
    requires Coherent(r, h)
    ensures Coherent(r, h + [version])
  {
    var h' := h + [version];
    assert forall i :: 0 <= i < |h| ==> h'[i] == h[i];
  }

  lemma {:induction false} SyncIsCoherent(w: World, config: seq<AgentConfig>)
    requires AllCoherent(w)
    ensures AllCoherent(w.(agents := Seeded(w.agents, config)))
  {
    if config != [] {
      SyncIsCoherent(w, config[..|config| - 1]);
    }
  }

  lemma StepKeepsCoherence(w: World, step: Step)
    requires AllCoherent(w) && Allowed(w, step)
    ensures AllCoherent(Next(w, step))
    ensures step.Operate? ==> Complaint(w.agents, step.op) != Some(NotModifiedWithoutCache)
  {
    match step
    case Publish(url, version) =>
      var w' := Next(w, step);
      forall alias | alias in w'.agents ensures Coherent(w'.agents[alias], History(w', w'.agents[alias].baseUrl)) {
        if w.agents[alias].baseUrl == url { CoherentGrows(w.agents[alias], History(w, url), version); }
      }
    case Operate(op) =>
      if op.Sync? {
        SyncIsCoherent(w, op.config[..SyncReach(op.config)]);
      } else if (op.Load? || op.Fetch? || op.ResolveSend?) && op.alias in w.agents {
        var r := w.agents[op.alias];
        LoadIsCoherent(r, History(w, r.baseUrl), op);
        CardOutcomeKeepsIdentity(r, op);
      }
  }

  lemma CardOutcomeKeepsIdentity(r: AgentRecord, op: Operation)
    requires op.Load? || op.Fetch? || op.ResolveSend?
    ensures var outcome := CardOutcome(r, op);
            outcome.Ok? ==> outcome.value.(card := r.card, etag := r.etag, lastModified := r.lastModified, fetchedAt := r.fetchedAt) == r
  {
  }

  /** On every run with honest servers the cache stays coherent and the 304-without-cache error never occurs. */
  lemma {:induction false} RunsStayCoherent(steps: seq<Step>)
    requires AllowedRun(steps)
    ensures AllCoherent(WorldAfter(steps))
    ensures steps != [] && steps[|steps| - 1].Operate? ==>
              Complaint(WorldAfter(steps[..|steps| - 1]).agents, steps[|steps| - 1].op) != Some(NotModifiedWithoutCache)
  {
    if steps != [] {
      RunsStayCoherent(steps[..|steps| - 1]);
      StepKeepsCoherence(WorldAfter(steps[..|steps| - 1]), steps[|steps| - 1]);
    }
  }

  /** A successful refresh in a coherent world stores the server's card. */
  lemma RefreshStoresCurrent(w: World, op: Operation)
    requires AllCoherent(w) && Allowed(w, Operate(op))
    requires op.Fetch? || (op.Load? && op.mode == Refresh)
    requires Complaint(w.agents, op).None?
    ensures op.alias in w.agents
    ensures var h := History(w, w.agents[op.alias].baseUrl);
            h != [] && Performed(w.agents, op)[op.alias].card == Some(h[|h| - 1].card)
  {
    var r := w.agents[op.alias];
    var h := History(w, r.baseUrl);
    assert HonestServer(h, op.respond);
    LoadIsCoherent(r, h, op);
    assert Performed(w.agents, op)[op.alias] == CardOutcome(r, op).value;
  }

  /** A successful refresh leaves the stored card equal to the server's. */
  lemma RefreshIsCurrent(steps: seq<Step>, op: Operation)
    requires AllowedRun(steps) && Allowed(WorldAfter(steps), Operate(op))
    requires op.Fetch? || (op.Load? && op.mode == Refresh)
    requires Complaint(WorldAfter(steps).agents, op).None?
    ensures var w := WorldAfter(steps);
            var h := History(w, w.agents[op.alias].baseUrl);
            h != [] && Performed(w.agents, op)[op.alias].card == Some(h[|h| - 1].card)
  {
    RunsStayCoherent(steps);
    RefreshStoresCurrent(WorldAfter(steps), op);
  }

  /** A stored answer can be revalidated: while the server does not change, the next condition holds, unless
      the server sent a full card without any validator. */
  lemma StoredAnswerRevalidates(r: AgentRecord, h: seq<Version>, response: Response, reader: Reader, storageOk: bool, now: int)
    requires LatestLabelled(h) && Coherent(r, h) && HonestAnswer(h, ValidatorsFromRecord(r), response)
    requires Exchange(r, response, reader, storageOk, now).Ok?
    ensures var next := ValidatorsFromRecord(Exchange(r, response, reader, storageOk, now).value);
            if next.Some? then h != [] && ConditionHolds(next.value, h[|h| - 1])
            else response.Full? && response.validators == Validators(None, None)
  {
  }

  /** The same cached data under other configuration. */
  predicate SameCache(r: AgentRecord, q: AgentRecord) {
    r.card == q.card && r.etag == q.etag && r.lastModified == q.lastModified && r.fetchedAt == q.fetchedAt
  }

  predicate NothingCached(r: AgentRecord) {
    r.card.None? && r.etag.None? && r.lastModified.None? && r.fetchedAt.None?
  }

  /** Configuration sync keeps a cached card exactly when the base URL is unchanged, and touches no other agent;
      the entries from the first bad one on are not applied. */
  lemma SyncKeepsCacheExactly(agents: Agents, config: seq<AgentConfig>)
    requires forall i, j :: 0 <= i < j < |config| ==> config[i].alias != config[j].alias
    ensures var synced := Synced(agents, config);
            var done := config[..SyncReach(config)];
            && (forall i :: 0 <= i < |done| ==> SeededFrom(synced, agents, done[i]))
            && (forall a :: (forall i :: 0 <= i < |done| ==> done[i].alias != a) ==> Lookup(synced, a) == Lookup(agents, a))
  {
    SeedingKeepsCacheExactly(agents, config[..SyncReach(config)]);
  }

  /** The row of a configured agent: the cache of a row with the same base URL, or none. */
  predicate SeededFrom(synced: Agents, agents: Agents, agent: AgentConfig) {
    && agent.alias in synced
    && var row := synced[agent.alias];
       && row.alias == agent.alias && row.baseUrl == agent.baseUrl && row.settings == agent.settings && row.readOnly
       && if agent.alias in agents && agents[agent.alias].baseUrl == agent.baseUrl
          then SameCache(row, agents[agent.alias]) else NothingCached(row)
  }

  lemma {:induction false} SeedingKeepsCacheExactly(agents: Agents, config: seq<AgentConfig>)
    requires forall i, j :: 0 <= i < j < |config| ==> config[i].alias != config[j].alias
    ensures var seeded := Seeded(agents, config);
            && (forall i :: 0 <= i < |config| ==> SeededFrom(seeded, agents, config[i]))
            && (forall a :: (forall i :: 0 <= i < |config| ==> config[i].alias != a) ==> Lookup(seeded, a) == Lookup(agents, a))
  {
    if config != [] {
      var init, last := config[..|config| - 1], config[|config| - 1];
      SeedingKeepsCacheExactly(agents, init);
      assert Lookup(Seeded(agents, init), last.alias) == Lookup(agents, last.alias);
      forall a | forall i :: 0 <= i < |config| ==> config[i].alias != a
        ensures Lookup(Seeded(agents, config), a) == Lookup(agents, a)
      {
        assert config[|config| - 1].alias != a;
      }
    }
  }

  /** Renaming and renaming back restores the registry, cached card included. */
  lemma RenameBack(agents: Agents, alias: string, newAlias: string)
    requires alias in agents ==> agents[alias].alias == alias
    requires Complaint(agents, Rename(alias, newAlias, true)).None?
    ensures var renamed := Performed(agents, Rename(alias, newAlias, true));
            && alias !in renamed && newAlias in renamed && SameCache(renamed[newAlias], agents[alias])
            && Complaint(renamed, Rename(newAlias, alias, true)).None?
            && Performed(renamed, Rename(newAlias, alias, true)) == agents
  {
    var renamed := Performed(agents, Rename(alias, newAlias, true));
    assert renamed[newAlias].(alias := alias, readOnly := false) == agents[alias];
  }

  // ----- When operations succeed, and what they leave -----

  /** The operation asks the endpoint: a fetch, a refresh, or a card is wanted and none is cached. */
  predicate Asks(record: AgentRecord, op: Operation)
    requires op.Load? || op.Fetch? || op.ResolveSend?
  {
    op.Fetch? || (op.Load? && op.mode == Refresh) || (record.card.None? && (op.ResolveSend? || op.mode == FetchIfMissing))
  }

  /** What the endpoint answers; before a send the request is unconditional. */
  function Answer(record: AgentRecord, op: Operation): Response
    requires op.Load? || op.Fetch? || op.ResolveSend?
  {
    op.respond(if op.ResolveSend? then None else ValidatorsFromRecord(record))
  }

  predicate Parses(op: Operation, card: string)
    requires op.Load? || op.Fetch? || op.ResolveSend?
  {
    if op.Load? then op.parses(card) else op.reader.parses(card)
  }

  predicate Negotiates(op: Operation, card: string)
    requires op.Load? || op.Fetch? || op.ResolveSend?
  {
    op.Load? || op.reader.usable(card)
  }

  /** The registry with only the cached data of one row replaced. */
  predicate OnlyCacheReplaced(agents: Agents, agents': Agents, alias: string, card: string, validators: Validators, now: int)
    requires alias in agents
  {
    agents' == agents[alias := agents[alias].(card := Some(card), etag := validators.etag,
                                              lastModified := validators.lastModified, fetchedAt := Some(now))]
  }

  /** A full answer is stored exactly when its card can be used and the storage works. */
  lemma FullAnswerIsStored(agents: Agents, op: Operation)
    requires op.Load? || op.Fetch? || op.ResolveSend?
    requires op.alias in agents && Asks(agents[op.alias], op) && Answer(agents[op.alias], op).Full?
    ensures var answer := Answer(agents[op.alias], op);
            && (Complaint(agents, op).None? <==> Negotiates(op, answer.card) && op.storageOk)
            && (Complaint(agents, op).None? ==>
                  OnlyCacheReplaced(agents, Performed(agents, op), op.alias, answer.card, answer.validators, op.now))
  {
  }

  /** A 304 keeps the cached card exactly when there is one that parses and can be used and the storage works; the
      answer's validators replace the stored ones where given. Before a send it is an error. */
  lemma NotModifiedIsStored(agents: Agents, op: Operation)
    requires op.Load? || op.Fetch? || op.ResolveSend?
    requires op.alias in agents && Asks(agents[op.alias], op) && Answer(agents[op.alias], op).NotModified?
    ensures var row, given := agents[op.alias], Answer(agents[op.alias], op).validators;
            && (Complaint(agents, op).None? <==>
                  && !op.ResolveSend? && row.card.Some? && op.storageOk
                  && Parses(op, row.card.value) && Negotiates(op, row.card.value))
            && (Complaint(agents, op).None? ==>
                  OnlyCacheReplaced(agents, Performed(agents, op), op.alias, row.card.value,
                    Validators(if given.etag.Some? then given.etag else row.etag,
                               if given.lastModified.Some? then given.lastModified else row.lastModified), op.now))
  {
  }

  /** Without a question to the endpoint nothing changes, and a cached card must parse and be usable; a failed
      answer is an error. */
  lemma OtherLoads(agents: Agents, op: Operation)
    requires op.Load? || op.Fetch? || op.ResolveSend?
    requires op.alias in agents
    ensures var row := agents[op.alias];
            if !Asks(row, op) then
              && Performed(agents, op) == agents
              && (Complaint(agents, op).None? <==>
                    row.card.None? || (Parses(op, row.card.value) && Negotiates(op, row.card.value)))
            else Answer(row, op).Failure? ==> Complaint(agents, op) == Some(TransportFailure)
  {
    assert agents[op.alias := agents[op.alias]] == agents;
  }

  /** When the other operations succeed, and what they leave. */
  lemma RegistryChanges(agents: Agents, op: Operation)
    ensures op.Add? ==>
              && (Complaint(agents, op).None? <==> op.alias !in agents && op.inputOk)
              && (Complaint(agents, op).None? ==>
                    var row := AgentRecord(op.alias, op.baseUrl, op.settings, false, None, None, None, None);
                    Performed(agents, op) == agents[op.alias := row])
    ensures op.Remove? ==>
              && (Complaint(agents, op).None? <==> op.alias in agents && !agents[op.alias].readOnly && op.storageOk)
              && (Complaint(agents, op).None? ==> Performed(agents, op) == map a | a in agents && a != op.alias :: agents[a])
    ensures op.Rename? ==>
              (Complaint(agents, op).None? <==>
                 op.alias != op.newAlias && op.alias in agents && !agents[op.alias].readOnly && op.newAlias !in agents && op.storageOk)
    ensures op.Sync? ==> (Complaint(agents, op).None? <==> forall i :: 0 <= i < |op.config| ==> op.config[i].ok)
    ensures (op.Load? || op.Fetch? || op.ResolveSend?) && op.alias !in agents ==> Complaint(agents, op) == Some(NotRegistered)
    ensures Complaint(agents, op).Some? && !op.Sync? ==> Performed(agents, op) == agents
  {
  }

  function TagServer(): Option<Validators> -> Response {
    (sent: Option<Validators>) =>
      if sent == Some(Validators(Some("tag"), None)) then NotModified(Validators(Some("tag"), None))
      else Full("card", Validators(Some("tag"), None))
  }

  lemma TagServerIsHonest()
    ensures HonestServer([Version("card", Some("tag"), None)], TagServer())
  {
  }

  /** A run in which a published card is fetched, cached and then revalidated. */
  lemma CardGetsCached() returns (steps: seq<Step>)
    ensures AllowedRun(steps) && |steps| == 4
    ensures var w := WorldAfter(steps);
            "agent" in w.agents && w.agents["agent"].card == Some("card") && w.agents["agent"].etag == Some("tag")
            && w.agents["agent"].fetchedAt == Some(2)
  {
    var version, respond := Version("card", Some("tag"), None), TagServer();
    TagServerIsHonest();
    var reader := Reader(card => true, card => true);
    var publish, add := Publish("url", version), Operate(Add("agent", "url", "", true));
    var fetch, refresh := Operate(Fetch("agent", respond, reader, true, 1)), Operate(Load("agent", Refresh, respond, card => true, true, 2));
    steps := [publish, add, fetch, refresh];
    assert [] + [publish] == [publish] && [publish] + [add] == [publish, add] && [] + [version] == [version];
    assert [publish, add] + [fetch] == [publish, add, fetch] && [publish, add, fetch] + [refresh] == steps;
    RunSnoc([], publish);
    assert WorldAfter([publish]) == World(map[], map["url" := [version]]);
    RunSnoc([publish], add);
    assert WorldAfter([publish, add]).agents == map["agent" := AgentRecord("agent", "url", "", false, None, None, None, None)];
    RunSnoc([publish, add], fetch);
    assert WorldAfter([publish, add, fetch]).agents ==
           map["agent" := AgentRecord("agent", "url", "", false, Some("card"), Some("tag"), None, Some(1))];
    RunSnoc([publish, add, fetch], refresh);
  }

  lemma RunSnoc(steps: seq<Step>, step: Step)
    ensures WorldAfter(steps + [step]) == Next(WorldAfter(steps), step)
    ensures AllowedRun(steps + [step]) <==> AllowedRun(steps) && Allowed(WorldAfter(steps), step)
  {
    assert (steps + [step])[..|steps|] == steps;
  }

  // ----- Exactly which servers -----

  /** No honest exchange on any coherent row ever leaves a card other than the last one. */
  ghost predicate NeverStale(h: seq<Version>) {
    forall r, response, reader, storageOk, now ::
      Coherent(r, h) && HonestAnswer(h, ValidatorsFromRecord(r), response) ==>
        var outcome := Exchange(r, response, reader, storageOk, now);
        outcome.Ok? ==> outcome.value.card == Some(h[|h| - 1].card)
  }

  /** The cache is right about a server exactly when no earlier version with another card passes for its last one. */
  lemma NeverStaleExactly(h: seq<Version>)
    requires h != []
    ensures NeverStale(h) <==> LatestLabelled(h)
  {
    if LatestLabelled(h) {
      forall r, response, reader, storageOk, now
        | Coherent(r, h) && HonestAnswer(h, ValidatorsFromRecord(r), response)
        ensures var outcome := Exchange(r, response, reader, storageOk, now);
                outcome.Ok? ==> outcome.value.card == Some(h[|h| - 1].card)
      {
        ExchangeIsCoherent(r, h, response, reader, storageOk, now);
      }
    } else {
      var i :| 0 <= i < |h| - 1 && h[i].card != h[|h| - 1].card && PassesFor(h[i], h[|h| - 1]);
      var r, response := StaleExchange(h, i);
      assert Exchange(r, response, Parsing(card => true), true, 0).value.card != Some(h[|h| - 1].card);
    }
  }

  /** An exchange that keeps an earlier card. */
  lemma StaleExchange(h: seq<Version>, i: nat) returns (r: AgentRecord, response: Response)
    requires i < |h| - 1 && PassesFor(h[i], h[|h| - 1])
    ensures Coherent(r, h) && HonestAnswer(h, ValidatorsFromRecord(r), response)
    ensures var outcome := Exchange(r, response, Parsing(card => true), true, 0);
            outcome.Ok? && outcome.value.card == Some(h[i].card)
  {
    var byTag := ConditionHolds(Validators(h[i].etag, None), h[|h| - 1]);
    r := AgentRecord("agent", "url", "", false, Some(h[i].card), if byTag then h[i].etag else None,
                     if byTag then None else h[i].lastModified, None);
    response := NotModified(Validators(None, None));
  }

  /** A server that reuses an ETag, one that changes only its weakness mark, and one whose new card has an
      older modification time. */
  lemma StaleServers() returns (reused: seq<Version>, weakened: seq<Version>, backdated: seq<Version>)
    ensures |reused| == |weakened| == |backdated| == 2
    ensures !NeverStale(reused) && !NeverStale(weakened) && !NeverStale(backdated)
    ensures reused[0].etag.Some? && reused[0].etag == reused[1].etag
    ensures weakened[0].etag == Some("\"1\"") && weakened[1].etag == Some("W/\"1\"")
    ensures backdated[0].etag.None? && backdated[1].etag.None? && backdated[1].lastModified == Some(1)
            && backdated[0].lastModified == Some(2)
  {
    reused := [Version("first", Some("tag"), None), Version("second", Some("tag"), None)];
    weakened := [Version("first", Some("\"1\""), None), Version("second", Some("W/\"1\""), None)];
    backdated := [Version("first", None, Some(2)), Version("second", None, Some(1))];
    assert "first"[0] != "second"[0];
    var strong := "\"1\"";
    assert strong[0] != 'W' && Opaque(strong) == strong;
    assert Opaque("W/\"1\"") == strong;
    assert PassesFor(reused[0], reused[1]) && PassesFor(weakened[0], weakened[1]) && PassesFor(backdated[0], backdated[1]);
    NeverStaleExactly(reused);
    NeverStaleExactly(weakened);
    NeverStaleExactly(backdated);
  }
}

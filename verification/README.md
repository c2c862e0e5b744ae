# Missive: verified models of its stateful cores

Missive is a command line program for agents that speak the A2A protocol. This project models the parts of it
whose behaviour spans many calls, and proves for-all statements about them. `dafny verify dfyconfig.toml`
checks every file.

Each module follows one component. What the program updates in place is a class or an array here, and each of its
methods is proved equal to a specification function; the lemmas beside it say what the program relies on.

| module | component | main results |
|---|---|---|
| `Barrier`, `Durations` | the barrier collective and its durations | early verdicts are exact about every future of the run; the poll loop ends within ceil(timeout / interval) + 1 polls, which some run needs; stop against continue |
| `AgentCache` | the Agent Card cache in the registry | coherence with honest servers over every run of fetches, configuration syncs, renames and removals; the 304-without-cache error is unreachable |
| `Sse`, `LineFold` | the server-sent-events reader | the loop equals a fold over lines; reading inverts printing exactly on printable records; stream algebra |
| `Negotiation`, `Bindings` | interface negotiation | the choice is the lexicographic optimum, complete, supported, and independent of spelling unless registered keys are ambiguous |
| `Replay` | event replay | the accumulated maps equal a declarative summary of the journal; event counts are conserved |
| `Journal` | listing, paging and tailing | pages cover the listing; a tail emits each matching event exactly once |
| `FileDrop`, `FileDropAdapter` | the file-drop handoff | after every single step each request is in exactly one place, nothing is overwritten, nothing is reported twice; the adapter's methods take only such steps |
| `Artifacts` | streamed artifacts | after any updates a stored row is what its accepted chunks denote |
| `ExportNames`, `Text` | export file names | the unbounded name search ends (pigeonhole); exports get distinct, safe names |
| `Broadcast` | broadcasts | concurrent execution equals the sequential one; success means every member succeeded |
| `Contexts` | the context forest | unique names, existing parents, no cycles, and closing times for good, on every run |

## Where the code decides differently than one might expect

- The reader differs from section 9.2.6 of the WHATWG HTML Living Standard, and the model follows the code: a pending
  record is dispatched at the end of the stream, and a lone CR does not end a line. The data limit counts value
  bytes, not the newlines that join them.
- A journal record that names a context and carries a task bound to the same context is counted twice by it.
- `tail --limit 0` may emit one event, and on a limit return the cursor may be past the last event emitted.
- With explicit `--state` values a cancelled task that was not asked for is an unmatched terminal state, a failure.
- In a barrier the error status is final, also for an error that might have passed.
- An artifact with an empty name, or an empty first media type, is refused by the store.
- An artifact's version never saturates in practice: the store refuses versions beyond the signed 64-bit range first
  (`Artifacts.AcceptedExactly`).
- An artifact's kind ranks links above data above text, its export text above data above links, so the export of a mixed
  artifact need not be of its kind (`Artifacts.PayloadFitsKindExactly`).
- A context's name can be shadowed by another context's id; `Contexts.NameSelectsExactly` says exactly when, and
  `Contexts.ShadowedName` gives a run where it happens.
- A refresh can keep a stale card (RFC 9110, sections 8.8 and 13.1): exactly with servers whose current version shares
  its ETag, under weak comparison, with an earlier version of another card, or is dated no later than one
  (`AgentCache.NeverStaleExactly`).
- Two registered interface keys may spell the same binding with different URLs; then their spelling decides which URL
  is used (`Negotiation.KeySpellingExactly`, `Negotiation.KeySpellingDecides`).
- A configuration sync that fails halfway keeps the rows it has already written.

## Model

| member | source | states |
|---|---|---|
| Barrier.Dedup | crates/missive-cli/src/barrier.rs:129-153 | the state list without repeats: same members, no duplicates, empty only for the empty list |
| Barrier.TargetsFromArgs | crates/missive-cli/src/barrier.rs:129-153 | which states count as success: the requested ones, or completed alone when none is requested; never none |
| Barrier.ClassifyMeaning | crates/missive-cli/src/barrier.rs:816-839 | for every `--state` list and task state, each status characterised by an if-and-only-if over the arguments (a cancelled task is unmatched under explicit states) |
| Barrier.GetTask | crates/missive-cli/src/barrier.rs:626-655 | lookup by task id finds a stored row or shows there is none |
| Barrier.LatestMemberTaskIsGreatest | crates/missive-cli/src/barrier.rs:718-733 | the chosen row is the greatest of the member's rows in this context by (update time, task id), and one is found whenever one exists |
| Barrier.LatestMemberTaskMeaning | crates/missive-cli/src/barrier.rs:718-733 | spelled out over agent, context, update time and task id: the latest row, and of equally late ones the one with the greatest id |
| Barrier.RequestComplaint | crates/missive-cli/src/barrier.rs:486-520 | the checks of history length, referenced group, contexts and names, and which comes first |
| Barrier.PrepareOperation | crates/missive-cli/src/barrier.rs:486-567 | which error is given when, in the order of the checks; the context is the explicit one and the referenced one, which agree; an absent count means all members; an accepted operation has 1 <= required <= members, the parsed timeout, and the capped interval, both positive |
| Barrier.BarrierMember.constructor | crates/missive-cli/src/barrier.rs:292-313 | a new member is pending with no attempts |
| Barrier.BarrierMember.ApplyRecord | crates/missive-cli/src/barrier.rs:292-313 | the member after a task row |
| Barrier.BarrierMember.MarkMissing | crates/missive-cli/src/barrier.rs:292-313 | the member after a lookup that found nothing |
| Barrier.BarrierMember.MarkError | crates/missive-cli/src/barrier.rs:292-313 | the member after a failed refresh |
| Barrier.BarrierMember.RefreshLocal | crates/missive-cli/src/barrier.rs:626-655 | local refresh: the row found decides, or the member is missing |
| Barrier.BarrierMember.RefreshRemote | crates/missive-cli/src/barrier.rs:657-716 | remote refresh: a settled stored row skips the request; the state kept when the request fails |
| Barrier.BarrierMember.Refresh | crates/missive-cli/src/barrier.rs:598-624 | a whole refresh equals the specification `Refreshed`; settled members only count the attempt |
| Barrier.RefreshReportsWhatItSaw | crates/missive-cli/src/barrier.rs:598-716 | a refreshed unsettled member is an error only when a read or request failed, missing exactly when there is no row to go by, and otherwise records its own stored row or the remote reply; a member left pending remotely records the reply |
| Barrier.StatusKinds | crates/missive-cli/src/barrier.rs:352-386 | which statuses count as success, failure, cancellation and pending |
| Barrier.CountIsCardinality | crates/missive-cli/src/barrier.rs:841-866 | a count is the number of members with such a status |
| Barrier.CountsPartition | crates/missive-cli/src/barrier.rs:841-886 | reached, failed, cancelled and pending counts add up to the members, and failed plus cancelled are the disqualified |
| Barrier.SettledIsAbsorbing | crates/missive-cli/src/barrier.rs:598-624 | after any number of polls a settled member keeps its status and every field but the attempt counter |
| Barrier.SatisfyingSatisfies | crates/missive-cli/src/barrier.rs:598-624 | every unsettled member has an observation that satisfies it, locally and remotely |
| Barrier.CanReachExactly | crates/missive-cli/src/barrier.rs:841-886 | some continuation of the run reaches the quorum if and only if enough members are not disqualified |
| Barrier.ContinueVerdictsAreExact | crates/missive-cli/src/barrier.rs:841-886 | under the continue policy failure or cancellation is announced exactly when no continuation reaches the quorum, and waiting or timeout exactly when one does |
| Barrier.StopVerdicts | crates/missive-cli/src/barrier.rs:841-886 | under the stop policy each verdict characterised by the counts and the elapsed time: failure or cancellation on the first disqualified member, and otherwise waiting before the timeout and timing out from then on; the quorum is then still reachable |
| Barrier.JudgedGrows | crates/missive-cli/src/barrier.rs:443-483 | with sleeps at least as long as requested, poll k is judged after the timeout or after k intervals |
| Barrier.CeilDivMeaning | crates/missive-cli/src/barrier.rs:443-483 | the rounding-up division behind the poll bound |
| Barrier.ContinueIsBeforeBound | crates/missive-cli/src/barrier.rs:881-885 | a poll that goes on is before the last one allowed |
| Barrier.PollsRefreshEach | crates/missive-cli/src/barrier.rs:443-450 | each poll refreshes every member once, from that member's own observation of that poll |
| Barrier.TurnContinues | crates/missive-cli/src/barrier.rs:443-483 | one loop turn that does not end keeps the run inside its bound |
| Barrier.PollMembers | crates/missive-cli/src/barrier.rs:443-483 | one poll refreshes each member once, from its own observation |
| Barrier.RunBarrier | crates/missive-cli/src/barrier.rs:443-483 | for every world and honest clock the loop ends within ceil(timeout / interval) + 1 polls, at the first poll whose verdict is not to wait, leaving the members in the specified state |
| Barrier.TimeoutIsLate | crates/missive-cli/src/barrier.rs:443-483 | under either policy no run times out before its deadline, a run that waits is before it, and every run still waiting at the deadline ends there |
| Barrier.NapMeaning | crates/missive-cli/src/barrier.rs:476-482 | a sleep is one interval, cut short so as not to pass the deadline |
| Barrier.BoundIsReached | crates/missive-cli/src/barrier.rs:443-483 | for every operation some world and honest clock make every poll of the bound, so it cannot be improved |
| Barrier.PolicyIrrelevantToState | crates/missive-cli/src/barrier.rs:598-624 | the failure policy never changes what the members record |
| Barrier.StopSuccessIsContinueSuccess | crates/missive-cli/src/barrier.rs:841-886 | on the same observations and clock a success under stop is a success at the same poll under continue |
| Barrier.StopEndsNoLater | crates/missive-cli/src/barrier.rs:841-886 | a run under stop ends no later than the run under continue |
| Barrier.RefreshKeepsCoherence | crates/missive-cli/src/barrier.rs:598-624 | one refresh keeps a member's fields consistent, counts the attempt and keeps the agent |
| Barrier.MembersStayCoherent | crates/missive-cli/src/barrier.rs:598-624 | on every run each status is the classification of the recorded task state and the counter is the number of polls |
| Barrier.SuccessIsWitnessed | crates/missive-cli/src/barrier.rs:841-886 | a successful run has recorded at least `required` tasks in a state that counts |
| Barrier.ExplicitNeverCancelsMembers | crates/missive-cli/src/barrier.rs:816-839 | with explicit target states no member is ever marked cancelled |
| Barrier.ExplicitNeverEndsCancelled | crates/missive-cli/src/barrier.rs:841-886 | with explicit target states no run under either policy ends cancelled |
| Durations.SplitUnitOf | crates/missive-cli/src/barrier.rs:1189-1219 | a numeral followed by a unit suffix splits into the two, for all four units |
| Durations.ParsePrinted | crates/missive-cli/src/barrier.rs:1189-1219 | a printed duration with any surrounding whitespace reads back to its value exactly when it is positive and fits 64 bits, and otherwise gives the named error |
| Durations.ParsedExactly | crates/missive-cli/src/barrier.rs:1189-1219 | a text is accepted with a value if and only if it is a numeral and a unit between whitespace, and the value is their product, positive and within 64 bits |
| Durations.SuffixExactly | crates/missive-cli/src/barrier.rs:1190-1204 | a unit is found exactly when the text ends in one of the four suffixes |
| Durations.MissingSuffixExactly | crates/missive-cli/src/barrier.rs:1199-1204 | without one the error says so |
| Durations.NumberErrorsExactly | crates/missive-cli/src/barrier.rs:1205-1219 | after a unit is found: no 64-bit numeral, zero, or a product that does not fit, each by equivalence |
| Durations.BarrierInterval | crates/missive-cli/src/barrier.rs:541-559 | the polling interval is the parsed value or the cap, whichever is smaller, with the parser's error, and has its default without an argument |
| AgentCache.Registry.constructor | crates/missive-cli/src/agent.rs:434-442 | an empty registry |
| AgentCache.Registry.SyncConfigAgents | crates/missive-cli/src/agent.rs:434-466 | configuration sync stops with an error at the first bad entry and keeps the rows written before it |
| AgentCache.Registry.AddAgent | crates/missive-cli/src/agent.rs:468-519 | adding: the error or the new row |
| AgentCache.Registry.RemoveAgent | crates/missive-cli/src/agent.rs:521-560 | removing: the error or the row's disappearance |
| AgentCache.Registry.RenameAgent | crates/missive-cli/src/agent.rs:800-861 | renaming carries the cached card to the new alias |
| AgentCache.Registry.FetchAndCache | crates/missive-cli/src/agent.rs:967-1048 | one conditional exchange with the card endpoint, stored only when every later check and the write succeed; each error in the order of the checks |
| AgentCache.Registry.CacheAgentCard | crates/missive-cli/src/agent.rs:1061-1074 | the row with card, validators and fetch time is written, or the storage fails and nothing changes |
| AgentCache.Registry.LoadAgentCard | crates/missive-cli/src/agent.rs:724-798 | loading from the cache, on demand, or by refresh; a cached card that no longer parses is an error |
| AgentCache.Registry.ResolveSendInterface | crates/missive-cli/src/send.rs:759-800 | resolution before a send, fetching an uncached card without a condition; a cached card must parse and be usable |
| AgentCache.ConditionMeansCurrent | crates/missive-cli/src/agent.rs:1076-1094 | a condition built from stored validators, with entity tags compared weakly, holds only when the stored card is the server's current one |
| AgentCache.ExchangeIsCoherent | crates/missive-cli/src/agent.rs:967-1074 | an exchange with an honest server keeps card and validators together, leaves the current card stored, and never meets a 304 without a cached card |
| AgentCache.LoadIsCoherent | crates/missive-cli/src/agent.rs:724-798 | the same for every way a card is loaded |
| AgentCache.SyncIsCoherent | crates/missive-cli/src/agent.rs:434-466 | configuration sync keeps card and validators belonging to the row's base URL |
| AgentCache.StoredAnswerRevalidates | crates/missive-cli/src/agent.rs:1061-1094 | after any successful exchange the next condition holds while the server does not change, unless the full answer carried no validator |
| AgentCache.FullAnswerIsStored | crates/missive-cli/src/agent.rs:724-798 | whenever the endpoint is asked (a fetch, a refresh, or no card cached) and answers in full, the operation succeeds if and only if the card is usable and the storage works, and then replaces exactly the row's card, validators and fetch time |
| AgentCache.NotModifiedIsStored | crates/missive-cli/src/agent.rs:1004-1048 | a 304 succeeds if and only if there is a cached card that parses and is usable and the storage works, and then keeps the card with the merged validators; before a send it is an error |
| AgentCache.OtherLoads | crates/missive-cli/src/agent.rs:724-760 | an operation that does not ask changes nothing and fails only on a cached card that does not parse or cannot be used; a failed answer is reported |
| AgentCache.RegistryChanges | crates/missive-cli/src/agent.rs:468-861 | when adding, removing, renaming and syncing succeed, what adding and removing leave, and that a failed operation changes nothing |
| AgentCache.CardGetsCached | crates/missive-cli/src/agent.rs:967-1048 | a run in which a published card is fetched, cached, and revalidated by a 304 |
| AgentCache.SyncKeepsCacheExactly | crates/missive-cli/src/agent.rs:434-466 | sync keeps an agent's cached card exactly when its base URL is unchanged, drops it otherwise, and touches no other agent; entries from the first bad one on are not applied |
| AgentCache.RenameBack | crates/missive-cli/src/agent.rs:800-861 | renaming and renaming back restores the whole registry, the cached card included |
| AgentCache.CardOutcomeKeepsIdentity | crates/missive-cli/src/agent.rs:1061-1074 | loading a card changes only the card, its validators and the fetch time |
| AgentCache.StepKeepsCoherence | crates/missive-cli/src/agent.rs:434-861 | every registry operation and every server publication keeps all rows coherent |
| AgentCache.RunsStayCoherent | crates/missive-cli/src/agent.rs:434-1094 | on every run with honest servers, none of whose versions an earlier one passes for, the cache stays coherent and the 304-without-cache error never occurs |
| AgentCache.RefreshStoresCurrent | crates/missive-cli/src/agent.rs:967-1074 | a successful refresh of a coherent row stores the server's card |
| AgentCache.RefreshIsCurrent | crates/missive-cli/src/agent.rs:967-1074 | after any run a successful refresh leaves the stored card equal to the server's current card |
| AgentCache.NeverStaleExactly | crates/missive-cli/src/agent.rs:967-1094 | for every server history: no honest exchange on any coherent row ever keeps a card other than the last one, if and only if no earlier version with another card has the last version's ETag under weak comparison, or was modified at its time or later |
| AgentCache.WeaknessMark | crates/missive-cli/src/agent.rs:1076-1082 | a weak tag counts as its strong one |
| AgentCache.StaleExchange | crates/missive-cli/src/agent.rs:1084-1094 | for every history that fails the condition, an exchange that keeps the earlier card |
| AgentCache.StaleServers | crates/missive-cli/src/agent.rs:1084-1094 | a server that reuses an ETag, one that only marks it weak, and one whose new card is dated earlier, each of which leaves a stale card |
| Sse.Delivered | crates/missive-a2a/src/lib.rs:3538-3562 | what reaches the consumer is a prefix of the records, numbered from 0 |
| Sse.StreamSink.constructor | crates/missive-a2a/src/lib.rs:3506-3570 | a sink starts with no event |
| Sse.StreamSink.OnRecord | crates/missive-a2a/src/lib.rs:3538-3562 | one record gets the next number; undecodable payloads and consumer failures are reported |
| Sse.DispatchRecord | crates/missive-a2a/src/lib.rs:3632-3654 | the buffered record, if it has data, is handed over; otherwise nothing is |
| Sse.TakeField | crates/missive-a2a/src/lib.rs:3590-3630 | one field line: comments and unknown fields change nothing, the budget counts value bytes only |
| Sse.ReadSseRecords | crates/missive-a2a/src/lib.rs:3572-3654 | for every text and every failing read the loop delivers exactly the records of the specification, in order, until the text ends, a read fails, the budget is exceeded or the consumer fails; nothing pending is dispatched on a failed read |
| Sse.DeliveredExactly | crates/missive-a2a/src/lib.rs:3538-3562 | everything is delivered if and only if every payload decodes and every item is taken; otherwise delivery stops at the first that is not |
| Sse.BrokenReadKeepsCompleted | crates/missive-a2a/src/lib.rs:3577-3590 | a stream that breaks off has released every record ended by a blank line before, and no pending one |
| Sse.OverBudgetIsRefused | crates/missive-a2a/src/lib.rs:3616-3623 | a record whose values exceed the budget is refused and nothing is delivered |
| Sse.BrokenReadIsPrefix | crates/missive-a2a/src/lib.rs:3577-3590 | a stream that breaks off delivers a prefix of what the whole stream would deliver |
| Sse.DeliveryStops | crates/missive-a2a/src/lib.rs:3538-3562 | nothing is delivered after a failure |
| Sse.LineEffectKeepsBufferOk | crates/missive-a2a/src/lib.rs:3577-3630 | after every line the byte counter equals the buffered value lengths and stays within the limit |
| Sse.ReadDeliversPrintable | crates/missive-a2a/src/lib.rs:3572-3654 | every delivered record is within the budget and has lines without CR at their end |
| Sse.JoinOfSplit | crates/missive-a2a/src/lib.rs:3632-3654 | joining the lines of a text restores it |
| Sse.SplitOfJoin | crates/missive-a2a/src/lib.rs:3632-3654 | splitting joined data restores the lines |
| Sse.ReadOfPrint | crates/missive-a2a/src/lib.rs:3572-3654 | reading the printed form of printable records gives those records |
| Sse.RoundTripExactly | crates/missive-a2a/src/lib.rs:3572-3654 | print-then-read is the identity on a list of records if and only if every record is printable |
| Sse.RereadingIsStable | crates/missive-a2a/src/lib.rs:3572-3654 | whatever was read from any text can be printed and read again unchanged |
| Sse.ReadOfPrintAs | crates/missive-a2a/src/lib.rs:3590-3654 | reading inverts printing in every style: with or without the space after the colon, with LF or CR LF line ends |
| Sse.AlikeReadings | crates/missive-a2a/src/lib.rs:3577-3654 | texts whose lines have the same effects, one by one, give the same reading |
| Sse.CompactFieldLine | crates/missive-a2a/src/lib.rs:3611-3615 | a value that does not begin with a space is the same with and without the space after the colon |
| Sse.SecondSpaceStays | crates/missive-a2a/src/lib.rs:3611-3615 | of two spaces after the colon one stays |
| Sse.ColonlessLine | crates/missive-a2a/src/lib.rs:3611-3615 | a field name without a colon has an empty value |
| Sse.SplitAfterBlankLine | crates/missive-a2a/src/lib.rs:3577-3654 | cutting a text after any blank line gives the concatenated readings, the first failure winning |
| Sse.IgnorableLineChangesNothing | crates/missive-a2a/src/lib.rs:3590-3630 | inserting a comment or unknown-field line anywhere changes nothing |
| Sse.MissingFinalNewline | crates/missive-a2a/src/lib.rs:3577-3590 | for every text a further line end at the end changes nothing: a missing final blank line or terminator does not matter |
| LineFold.FeedConcat | crates/missive-a2a/src/lib.rs:3577-3630 | feeding lines in two runs is feeding them in one |
| LineFold.FeedKeeps | crates/missive-a2a/src/lib.rs:3577-3630 | an invariant of the line buffer holds after any lines, and of every record released |
| LineFold.FeedIgnores | crates/missive-a2a/src/lib.rs:3577-3630 | a line without effect may be dropped anywhere |
| Bindings.CanonicalIsIdempotent | crates/missive-a2a/src/lib.rs:871-884 | canonicalising a binding twice is canonicalising it once, for every string |
| Bindings.SpellingsAgree | crates/missive-a2a/src/lib.rs:871-884 | surrounding whitespace and ASCII case never change the canonical binding |
| Bindings.HttpJsonSpellings | crates/missive-a2a/src/lib.rs:871-884 | "httpjson" and "http+json" are one binding |
| Bindings.KnownNames | crates/missive-a2a/src/lib.rs:871-884 | the three known names are recognised by their letters alone, whatever the separators; any other name is only trimmed and lowered |
| Bindings.WellFormedExactly | crates/missive-a2a/src/lib.rs:948-965 | a binding is spelled with small letters, digits, plus, hyphen, underscore and dot |
| Bindings.FoldedNameIsFixed | crates/missive-a2a/src/lib.rs:871-884 | canonical names are fixed points |
| Negotiation.NormalizedPreferences | crates/missive-a2a/src/lib.rs:931-946 | the loop computes the first error or the distinct normalised preferences |
| Negotiation.NormalizedMeaning | crates/missive-a2a/src/lib.rs:931-946 | it succeeds exactly when every value is valid, and then holds every requested binding once and nothing else |
| Negotiation.NormalizedOrder | crates/missive-a2a/src/lib.rs:931-946 | earlier requests come first, and the first bad request gives the error |
| Negotiation.FirstCardInterface | crates/missive-a2a/src/lib.rs:1004-1008 | the first card position with the binding, or none has it |
| Negotiation.MissingInterfacesFallback | crates/missive-a2a/src/lib.rs:1021-1075 | with an empty card the earliest binding with a fallback decides, even when its URL is malformed |
| Negotiation.ChooseFromCard | crates/missive-a2a/src/lib.rs:979-1019 | the pair chosen is lexicographically least by (preference rank, card position); none only when no pair is usable |
| Negotiation.BestIsUnique | crates/missive-a2a/src/lib.rs:979-1019 | there is one least pair |
| Negotiation.Candidates | crates/missive-a2a/src/lib.rs:891-929 | the bindings tried are all locally supported and never none |
| Negotiation.Negotiate | crates/missive-a2a/src/lib.rs:891-1075 | the whole negotiation gives an answer allowed by the declarative `Outcome` |
| Negotiation.OutcomeIsUnique | crates/missive-a2a/src/lib.rs:891-1075 | `Outcome` allows one answer for each input, errors included |
| Negotiation.ChoiceIsSupportedAndComplete | crates/missive-a2a/src/lib.rs:891-1075 | every choice is locally supported, and a card interface is chosen exactly when a usable one exists |
| Negotiation.CardChoiceIsAdvertised | crates/missive-a2a/src/lib.rs:1004-1019 | a card interface is passed on with the URL, tenant, version and spelling of the best card entry, under its canonical binding |
| Negotiation.FallbackExactly | crates/missive-a2a/src/lib.rs:1042-1075 | a fallback exists if and only if a URL is registered under some spelling of the binding, or it is HTTP+JSON with a base URL; the first registered URL comes first |
| Negotiation.RequestedExactly | crates/missive-a2a/src/lib.rs:948-965 | a requested binding is refused exactly when it is empty or malformed |
| Negotiation.RefusalsExactly | crates/missive-a2a/src/lib.rs:891-1040 | which error is reported when |
| Negotiation.NormalizedIgnoresSpelling | crates/missive-a2a/src/lib.rs:931-965 | respelled preferences normalise alike |
| Negotiation.SpellingDoesNotMatter | crates/missive-a2a/src/lib.rs:871-1075 | respelling bindings in card, preferences, override or registered keys changes neither the choice nor the error, only the quoted spelling; for registered keys provided no two spell one binding with different URLs |
| Negotiation.KeySpellingExactly | crates/missive-a2a/src/lib.rs:1042-1058 | no respelling (and so reordering) of the registered keys changes the URL found for any binding, if and only if keys that spell the same binding carry the same URL |
| Negotiation.KeySpellingDecides | crates/missive-a2a/src/lib.rs:1042-1058 | two spellings of HTTP+JSON with different URLs: swapping the spellings changes the choice of a negotiation with an empty card |
| Negotiation.FallbacksIgnoreSpelling | crates/missive-a2a/src/lib.rs:1021-1075 | respelled unambiguous fallbacks give the same fallback outcome |
| Negotiation.CanonicalCardIsRespelling | crates/missive-a2a/src/lib.rs:1004-1019 | canonicalising a card beforehand is such a respelling |
| Replay.FirstPathDecides | crates/missive-cli/src/events.rs:704-722 | the text found is the one at the first path that leads to a string through the payload's objects, and none is found exactly when no path does |
| Replay.TaskStateMeaning | crates/missive-cli/src/events.rs:690-702 | a task's state is the first of six texts of the payload, given by members of objects, normalised |
| Replay.ContextHintMeaning | crates/missive-cli/src/events.rs:658-672 | a task's context is the record's own or the first of four texts of the payload |
| Replay.ContextStateAndName | crates/missive-cli/src/events.rs:630-639 | a context's state is the first of three texts and its name the first of two |
| Replay.NormalizedState | crates/missive-cli/src/events.rs:724-731 | surrounding whitespace and one prefix in either case go, letters are lowered and hyphens become underscores |
| Replay.TaskSummarySnoc | crates/missive-cli/src/events.rs:1107-1154 | the task accumulator after one more of its records |
| Replay.ContextSummarySnoc | crates/missive-cli/src/events.rs:1107-1154 | the context accumulator after one more observation |
| Replay.BindingIsForever | crates/missive-cli/src/events.rs:642-688 | once a task is bound to a context no later record changes it |
| Replay.NamedStepAgrees | crates/missive-cli/src/events.rs:617-640 | counting a record at the context it names |
| Replay.TaskStepAgrees | crates/missive-cli/src/events.rs:642-688 | counting a record at its task, and the binding it leaves |
| Replay.BoundStepAgrees | crates/missive-cli/src/events.rs:642-688 | counting a task record at the context its task is bound to, a second time when the record names it too |
| Replay.RecordAgrees | crates/missive-cli/src/events.rs:575-688 | one record keeps both maps equal to the summaries |
| Replay.Replayer.constructor | crates/missive-cli/src/events.rs:575-615 | empty maps summarise the empty journal |
| Replay.Replayer.CountType | crates/missive-cli/src/events.rs:575-615 | the per-type counters |
| Replay.Replayer.ApplyContext | crates/missive-cli/src/events.rs:617-640 | the context half of a record |
| Replay.Replayer.ApplyTask | crates/missive-cli/src/events.rs:642-688 | the task half of a record |
| Replay.Replayer.UpdateTask | crates/missive-cli/src/events.rs:642-688 | one task accumulator update |
| Replay.Replayer.ApplyRecord | crates/missive-cli/src/events.rs:575-615 | one record in place extends the agreement by it |
| Replay.Replayer.ReplayRecords | crates/missive-cli/src/events.rs:575-688 | for every journal the three maps hold exactly the declarative per-key summaries: a task's from its own records alone, a context's from its observations |
| Replay.TaskListsFollowBindings | crates/missive-cli/src/events.rs:642-688 | a task is listed under a context exactly when it is bound to it, so lists are disjoint |
| Replay.BoundContextsAreListed | crates/missive-cli/src/events.rs:642-688 | the context of every bound task is summarised |
| Replay.EventCountSplits | crates/missive-cli/src/events.rs:617-688 | a context's observations are the records naming it plus the task records bound to it |
| Replay.AgreementIsUnique | crates/missive-cli/src/events.rs:575-688 | the summaries determine the context map |
| Replay.ContextsAfterAgree | crates/missive-cli/src/events.rs:575-688 | the value form of the replay agrees with the summaries |
| Replay.CountsAreConservedAfter | crates/missive-cli/src/events.rs:575-688 | conservation for the value form |
| Replay.EventCountsAreConserved | crates/missive-cli/src/events.rs:575-688 | over all contexts the event counts add up to the naming records plus the records of bound tasks, and each count splits that way |
| Journal.FiltersCombine | crates/missive-cli/src/events.rs:1022-1068 | each filter alone selects by its own field, and together they select what each selects |
| Journal.FilteredEvents | crates/missive-cli/src/events.rs:540-558 | a listing is the first `limit` matching events |
| Journal.MatchingIsAscending | crates/missive-cli/src/events.rs:1022-1068 | filtering keeps the sequence order |
| Journal.CursorDropsPrefix | crates/missive-cli/src/events.rs:1022-1068 | setting `after_sequence` to a match drops exactly the matches up to it |
| Journal.PagesCoverListing | crates/missive-cli/src/events.rs:540-558 | repeated listings end and concatenate to the unlimited one, all but the last page full |
| Journal.NewCursorIsGreatest | crates/missive-cli/src/events.rs:443-449 | the cursor moves to the greatest sequence there is and never back |
| Journal.WindowsJoin | crates/missive-cli/src/events.rs:435-482 | consecutive cursor windows join without gap or repeat |
| Journal.FreshMatches | crates/missive-cli/src/events.rs:435-482 | what one poll adds is the window up to the newest event |
| Journal.WindowGrows | crates/missive-cli/src/events.rs:435-482 | an earlier window is unchanged by growth of the journal |
| Journal.Tail.constructor | crates/missive-cli/src/events.rs:404-435 | where a tail starts: the given sequence, or the newest stored one |
| Journal.Tail.PollOnce | crates/missive-cli/src/events.rs:435-482 | one poll moves the cursor past every new event and emits the matching ones up to the limit, at least one |
| Journal.Tail.Emit | crates/missive-cli/src/events.rs:445-460 | event-by-event emission stops at the limit |
| Journal.Tail.Run | crates/missive-cli/src/events.rs:435-482 | over every growing journal the emitted list is exactly the matching events between start and cursor, or the first max(1, limit) of them on a limit return; each way of ending is characterised, and the run ends at the first poll that gives cause |
| FileDrop.OutputNames | crates/missive-adapters/src/file_drop.rs:680-692 | the report on "stem.json" goes to "stem.result.json" or "stem.error.json", numbered before the extension |
| FileDrop.ReadyNamesExactly | crates/missive-adapters/src/file_drop.rs:911-925 | a name is ready if and only if it is a stem not starting with a dot and ".json", and has no ".processing" in it |
| FileDrop.ContainsMeaning | crates/missive-adapters/src/file_drop.rs:917-919 | containment means being found at some position |
| FileDrop.HiddenNamesAreNotReady | crates/missive-adapters/src/file_drop.rs:637-641 | no claim or temporary name, however numbered, is ready |
| FileDrop.HiddenNames | crates/missive-adapters/src/file_drop.rs:637-641 | a claim shows the file it is of and that it is in progress; different suffixes give different claims and temporary names |
| FileDrop.UniquePath | crates/missive-adapters/src/file_drop.rs:1038-1074 | the probe loop returns the first free candidate of at most 10,001 |
| FileDrop.NoFreeNameMeansFull | crates/missive-adapters/src/file_drop.rs:1038-1074 | it gives up only in a directory of more than 10,000 files |
| FileDrop.TempIsNotOutput | crates/missive-adapters/src/file_drop.rs:1076-1088 | a temporary name is never the name it stands for |
| FileDrop.RenameConserves | crates/missive-adapters/src/file_drop.rs:627-677 | a rename to a free name keeps each request in exactly one file |
| FileDrop.ArriveKeeps | crates/missive-adapters/src/file_drop.rs:595-625 | an arrival keeps the invariant |
| FileDrop.ClaimKeeps | crates/missive-adapters/src/file_drop.rs:627-653 | the claim's rename keeps the invariant |
| FileDrop.ChooseKeeps | crates/missive-adapters/src/file_drop.rs:680-692 | choosing an output name keeps the invariant; the name is free |
| FileDrop.ArchiveKeeps | crates/missive-adapters/src/file_drop.rs:655-677 | archiving keeps the invariant |
| FileDrop.WriteTempKeeps | crates/missive-adapters/src/file_drop.rs:695-722 | writing the temporary report keeps the invariant |
| FileDrop.WritePartialKeeps | crates/missive-adapters/src/file_drop.rs:695-722 | an interrupted write that leaves a partial temporary file keeps the invariant |
| FileDrop.PublishKeeps | crates/missive-adapters/src/file_drop.rs:695-722 | publishing keeps the invariant: no request is reported twice |
| FileDrop.RemovalKeeps | crates/missive-adapters/src/file_drop.rs:695-722 | removal of a temporary file, a stop, and collection of a report keep the invariant |
| FileDrop.EveryActionKeepsInv | crates/missive-adapters/src/file_drop.rs:627-722 | every step keeps the whole invariant |
| FileDrop.RunsConserveRequests | crates/missive-adapters/src/file_drop.rs:627-722 | after any steps, with the worker stopped or restarted anywhere, each arrived request is in exactly one of inbox, claim, processed and error, and no request is reported twice |
| FileDrop.RequestsOnEveryRun | crates/missive-adapters/src/file_drop.rs:627-722 | spelled out: on every run each request that arrived is in exactly one file, in the inbox, the processed or the error directory; no request is reported twice, nor while in the inbox |
| FileDrop.NothingIsOverwritten | crates/missive-adapters/src/file_drop.rs:627-722 | on every run no step replaces an existing file, and every other file keeps its content |
| FileDrop.StepKeepsContent | crates/missive-adapters/src/file_drop.rs:627-722 | no step alters or drops a request's content |
| FileDrop.ArrivalsKeepTheirText | crates/missive-adapters/src/file_drop.rs:627-722 | on every run each request that arrived is, word for word, in exactly one file |
| FileDrop.ArchivedStays | crates/missive-adapters/src/file_drop.rs:655-677 | an archived request is never moved again |
| FileDropAdapter.TraceKeepsInv | crates/missive-cli/src/adapter.rs:432-495 | a trace of single protocol steps keeps the invariant throughout |
| FileDropAdapter.InsertSorts | crates/missive-adapters/src/file_drop.rs:595-625 | insertion keeps a name list sorted |
| FileDropAdapter.SortedNamesAgree | crates/missive-adapters/src/file_drop.rs:595-625 | there is one sorted list of given names |
| FileDropAdapter.SuffixesDiffer | crates/missive-adapters/src/file_drop.rs:1090-1093 | different counters or processes never share a suffix |
| FileDropAdapter.Worker.constructor | crates/missive-cli/src/adapter.rs:303-328 | a worker may start on what earlier workers left behind |
| FileDropAdapter.Worker.TraceIsSound | crates/missive-cli/src/adapter.rs:432-495 | every state a worker has been through keeps the invariant |
| FileDropAdapter.Worker.HandIsSound | crates/missive-cli/src/adapter.rs:432-495 | what holds of the file in hand in each phase |
| FileDropAdapter.Worker.Happen | crates/missive-cli/src/adapter.rs:328-359 | what others do while the worker sleeps: a request arrives under a free name, or a report is collected |
| FileDropAdapter.Worker.NextUniqueSuffix | crates/missive-adapters/src/file_drop.rs:1090-1093 | the suffix is the process id and the counter, which grows by one |
| FileDropAdapter.Worker.ClaimReadyFile | crates/missive-adapters/src/file_drop.rs:627-653 | a claim succeeds exactly when the name is ready, a hidden name is free, and the rename of an existing file works; it is then that rename, and otherwise nothing changes and the error says why |
| FileDropAdapter.Worker.MoveToClaim | crates/missive-adapters/src/file_drop.rs:627-653 | the rename of the claim |
| FileDropAdapter.Worker.OutputPathForClaim | crates/missive-adapters/src/file_drop.rs:680-692 | the first free output name, or the search fails |
| FileDropAdapter.Worker.CompleteClaim | crates/missive-adapters/src/file_drop.rs:655-677 | the archive name is the first free one; on success the claim is renamed to it, on error nothing changes |
| FileDropAdapter.Worker.ArchiveClaim | crates/missive-cli/src/adapter.rs:443-478 | the output name is chosen before the request is archived; which error when |
| FileDropAdapter.Worker.WriteTempFile | crates/missive-adapters/src/file_drop.rs:695-722 | the report goes to the first free temporary name; a failed write leaves nothing or a partial file |
| FileDropAdapter.Worker.FailWrite | crates/missive-adapters/src/file_drop.rs:695-722 | a write that fails leaves the files alone or leaves a partial temporary file |
| FileDropAdapter.Worker.SaveTemp | crates/missive-adapters/src/file_drop.rs:695-722 | a write that succeeds |
| FileDropAdapter.Worker.PublishTemp | crates/missive-adapters/src/file_drop.rs:695-722 | the temporary file is renamed to the output name; when that fails it is removed, or left behind when the removal fails too |
| FileDropAdapter.Worker.WriteOutputAtomic | crates/missive-adapters/src/file_drop.rs:695-722 | on success the only change is the whole report under the output name; on error no report is published and nothing outside the outbox changes |
| FileDropAdapter.Worker.FinishClaim | crates/missive-cli/src/adapter.rs:443-495 | what follows the claim succeeds exactly when no fault occurs and the name searches succeed, and then has exactly the two intended effects |
| FileDropAdapter.Worker.ProcessFile | crates/missive-cli/src/adapter.rs:432-495 | succeeds if and only if the name is ready and in the inbox, no fault occurs and every name search succeeds; then the request has moved to its fresh archive name, its report is under a fresh output name ("stem.result.json" or "stem.error.json" by its outcome, perhaps numbered), and nothing else has changed; each error has its cause |
| FileDropAdapter.Worker.ReadyFiles | crates/missive-adapters/src/file_drop.rs:595-625 | exactly the ready inbox files, in name order |
| FileDropAdapter.MergeIsConsistent | crates/missive-cli/src/adapter.rs:385-391 | merging tallies keeps counters equal to what the views say |
| FileDropAdapter.ProcessReadyFiles | crates/missive-cli/src/adapter.rs:406-430 | a pass processes exactly the first min(remaining, ready) ready names in order, and these leave the inbox; the new publications are its views; an error means a full directory or a fault |
| FileDropAdapter.ProcessNext | crates/missive-cli/src/adapter.rs:418-429 | the next file of a pass |
| FileDropAdapter.AddPass | crates/missive-cli/src/adapter.rs:328-340 | one round merged into the totals: either the limit is reached or no ready file is left |
| FileDropAdapter.LetHappen | crates/missive-cli/src/adapter.rs:348-358 | one sleep: the requests dropped arrive unless their name is taken, and nothing else arrives |
| FileDropAdapter.RunFileDropAdapter | crates/missive-cli/src/adapter.rs:303-382 | a run sleeps until the deadline unless the limit is reached or `once` is given, and everything dropped during its sleeps (unless the name was taken), and nothing else, has arrived; on success it has processed the first ready files in order and ends with the limit reached or no ready file left (with `once`, exactly min(limit, ready) files); its tally matches its publications in order; an error means a zero limit, a full directory or a fault |
| Artifacts.ArtifactStore.constructor | crates/missive-store/src/repository.rs:2402-2455 | an empty store |
| Artifacts.ArtifactStore.UpsertArtifact | crates/missive-store/src/repository.rs:2402-2455 | a row is stored, or refused for an empty or long name or media type, its version, or an unknown task |
| Artifacts.ArtifactStore.PersistArtifactUpdate | crates/missive-cli/src/artifact.rs:235-268 | one streamed update, appended or replacing |
| Artifacts.ArtifactStore.MergeIncremental | crates/missive-cli/src/artifact.rs:546-568 | chunk merge: parts extended, given fields replaced |
| Artifacts.ArtifactStore.PersistTaskArtifacts | crates/missive-cli/src/artifact.rs:213-233 | all of a task's artifacts are stored, or one is refused and nothing changes |
| Artifacts.WantedRow | crates/missive-cli/src/artifact.rs:235-268 | an update asks for the row that the longer stream denotes |
| Artifacts.StreamFolds | crates/missive-cli/src/artifact.rs:235-268 | after any updates each row is what its own accepted updates denote: the parts since the last replacement concatenated, and the number of updates as version |
| Artifacts.StreamStep | crates/missive-cli/src/artifact.rs:235-268 | one update is accepted exactly when the denoted row is storable, and then stores it |
| Artifacts.AppendOrReplace | crates/missive-cli/src/artifact.rs:235-268 | an appended chunk extends the stored parts and replaces only what it gives, any other update replaces the artifact; the version goes up by one |
| Artifacts.AcceptedExactly | crates/missive-cli/src/artifact.rs:235-268 | an update is accepted if and only if its references are good, the resulting name and media type are absent or non-empty and short enough in bytes, and the version counter is not used up |
| Artifacts.RejectionMeaning | crates/missive-store/src/repository.rs:2402-2412 | the store's own checks as one condition |
| Artifacts.OthersUntouched | crates/missive-cli/src/artifact.rs:235-268 | updates of other artifacts leave a row alone |
| Artifacts.KindOfConcat | crates/missive-cli/src/artifact.rs:591-615 | the kind of joined parts is the higher of the two |
| Artifacts.KindOfOne | crates/missive-cli/src/artifact.rs:591-615 | the kind of a single part, and the order of kinds |
| Artifacts.KindIsHighest | crates/missive-cli/src/artifact.rs:591-615 | a stream's kind is the highest among its live chunks |
| Artifacts.RowOfFields | crates/missive-cli/src/artifact.rs:510-530 | a row shows the denoted artifact's name, kind and first media type, and the last update's references |
| Artifacts.PrimaryMimeIsFirst | crates/missive-cli/src/artifact.rs:587-590 | the media type is that of the first part that has one |
| Artifacts.PayloadOfOne | crates/missive-cli/src/artifact.rs:632-713 | the payload of no part and of a single part |
| Artifacts.PayloadForms | crates/missive-cli/src/artifact.rs:632-713 | bytes come before text, text before data, data before links |
| Artifacts.PayloadConcat | crates/missive-cli/src/artifact.rs:632-713 | joined parts whose payloads have the same form export the joined payloads |
| Artifacts.RawConcat | crates/missive-cli/src/artifact.rs:632-648 | the exported bytes of joined parts are joined |
| Artifacts.TextOfConcat | crates/missive-cli/src/artifact.rs:632-663 | text of joined parts |
| Artifacts.TextIsConcatenated | crates/missive-cli/src/artifact.rs:632-663 | the text of a stream is that of its chunks in order |
| Artifacts.TextStreamPayload | crates/missive-cli/src/artifact.rs:632-713 | a text artifact exports exactly the concatenated texts of its live chunks |
| Artifacts.PayloadFitsKindExactly | crates/missive-cli/src/artifact.rs:591-713 | the exported payload is of the recorded kind if and only if there are raw bytes or at most one of text, data and links, because the two rank contents differently |
| Artifacts.CaptionedLinkExportsCaption | crates/missive-cli/src/artifact.rs:632-713 | an artifact of kind file whose export is its caption alone |
| ExportNames.SanitizedIsClean | crates/missive-cli/src/artifact.rs:832-864 | for every input the sanitised name has an extension and only safe characters, and does not end in a dot |
| ExportNames.SanitizedName | crates/missive-cli/src/artifact.rs:832-864 | the directory and the dots around the leaf go, every other character is kept or becomes an underscore, and an extension is added where there is none |
| ExportNames.SanitizedDots | crates/missive-cli/src/artifact.rs:846-858 | a leaf of dots is replaced by the fallback, its own dots becoming underscores, or by "artifact" |
| ExportNames.SanitizedEmptyLeaf | crates/missive-cli/src/artifact.rs:833-837 | an empty leaf is replaced by the fallback before sanitising |
| ExportNames.LeafMeaning | crates/missive-cli/src/artifact.rs:833-837 | the leaf is what follows the last separator |
| ExportNames.SafeFileNameMeaning | crates/missive-cli/src/artifact.rs:784-796 | the name asked for is the artifact's, or the first part's file name, or the id; a clean one with an extension is used as it is |
| ExportNames.SanitizeIsIdempotent | crates/missive-cli/src/artifact.rs:832-864 | a sanitised name comes back unchanged, whatever the fallback and extension |
| ExportNames.NumberedIsSafe | crates/missive-cli/src/artifact.rs:798-824 | numbered alternatives of a safe name are safe |
| ExportNames.NumberedFill | crates/missive-cli/src/artifact.rs:798-824 | a set holding all candidates up to n has that many elements |
| ExportNames.UniqueSafeFileName | crates/missive-cli/src/artifact.rs:798-824 | the unbounded suffix search ends within (names used) + 1 candidates, the wanted name included, at the first free one |
| ExportNames.UniqueNames | crates/missive-cli/src/artifact.rs:456-462 | one name after the other: safe, from its base, repeating none |
| ExportNames.ExportFileNames | crates/missive-cli/src/artifact.rs:435-477 | a whole export gets pairwise distinct, safe names, each the sanitised name unless an earlier one took it |
| ExportNames.SafeNamesStayInside | crates/missive-cli/src/artifact.rs:784-864 | a safe name is non-empty, has no separator and is neither "." nor ".." |
| ExportNames.PayloadExtensionIsSafe | crates/missive-cli/src/artifact.rs:632-713 | every extension the payload choice gives is safe |
| ExportNames.PayloadExtensions | crates/missive-cli/src/artifact.rs:632-713 | JSON payloads are ".json"; bytes and text take the media type's extension, or "bin" and "txt" |
| ExportNames.ExtensionTable | crates/missive-cli/src/artifact.rs:866-878 | which media type gives which extension: a table of seven, then the "+json" suffix, then the "text/" prefix, whatever the letter case, and none otherwise |
| Text.ValueOfDecimal | crates/missive-cli/src/artifact.rs:798-824 | decimal printing reads back |
| Text.DecimalInjective | crates/missive-cli/src/artifact.rs:798-824 | different numbers print differently |
| Text.NameWithExtension | crates/missive-adapters/src/file_drop.rs:1038-1062 | a name splits at its last dot and is numbered before it |
| Text.LexLeqMeaning | crates/missive-adapters/src/file_drop.rs:622-623 | names are ordered as prefixes, or by their first difference |
| Text.LoweredLetters | crates/missive-a2a/src/lib.rs:871-884 | only the letters A to Z change, each to its small letter |
| Text.NameWithoutExtension | crates/missive-adapters/src/file_drop.rs:1038-1062 | a name without an extension is numbered at its end |
| Text.NumberedInjective | crates/missive-adapters/src/file_drop.rs:1038-1074 | different suffixes give different names |
| Text.CandidatesAreDistinct | crates/missive-adapters/src/file_drop.rs:1038-1074 | all candidates of a name search differ |
| Text.CandidatesFill | crates/missive-adapters/src/file_drop.rs:1038-1074 | pigeonhole: a set holding n candidates has at least n elements |
| Broadcast.Reached | crates/missive-cli/src/bcast.rs:462-562 | how many members a sequential run tries |
| Broadcast.ReachedIsFirstFailure | crates/missive-cli/src/bcast.rs:462-562 | under stop the run includes the first non-success and nothing after it |
| Broadcast.RunSequential | crates/missive-cli/src/bcast.rs:462-562 | the run is aborted exactly when a member it reaches cannot be stored; otherwise the results are the members' outcomes through the point where the policy stops, each with one event |
| Broadcast.SortSorts | crates/missive-cli/src/bcast.rs:564-644 | sorting by index keeps the entries |
| Broadcast.SortedListsAgree | crates/missive-cli/src/bcast.rs:564-644 | sorted lists with the same entries are the same list |
| Broadcast.SelectMeaning | crates/missive-cli/src/bcast.rs:564-644 | early and planned results split the members by outcome, in order |
| Broadcast.SelectCoversAll | crates/missive-cli/src/bcast.rs:564-644 | together they hold each member exactly once |
| Broadcast.RunConcurrent | crates/missive-cli/src/bcast.rs:564-644 | the run is aborted exactly when some member cannot be stored (or its thread panics), after the events before it; otherwise the merged and sorted results are every member's result in group order, as in a sequential continue run |
| Broadcast.JoinThreads | crates/missive-cli/src/bcast.rs:600-640 | joining in planning order, after the early results |
| Broadcast.AbortMeansUnstored | crates/missive-cli/src/bcast.rs:564-644 | a concurrent run is aborted only when some result cannot be stored |
| Broadcast.ConcurrentEventsArePermuted | crates/missive-cli/src/bcast.rs:564-644 | the concurrent journal holds the sequential run's member events in another order |
| Broadcast.MarkLastFailureAsTimeout | crates/missive-cli/src/bcast.rs:808-816 | the in-place edit of the last failed member |
| Broadcast.MarkedAt | crates/missive-cli/src/bcast.rs:808-816 | exactly the last failed member becomes timed out |
| Broadcast.LastFailure | crates/missive-cli/src/bcast.rs:808-816 | whenever a member failed, exactly one entry is edited |
| Broadcast.MarkingTimesOut | crates/missive-cli/src/bcast.rs:285-292 | the edit makes a timeout visible and changes nobody's success |
| Broadcast.OverallExactly | crates/missive-cli/src/bcast.rs:850-872 | each overall status characterised by the members' statuses |
| Broadcast.TimeoutReportedExactly | crates/missive-cli/src/bcast.rs:285-292 | a broadcast is reported as timed out if and only if some member timed out, or the deadline has passed and some member failed |
| Broadcast.SucceededExactly | crates/missive-cli/src/bcast.rs:850-872 | under either policy and execution, and with or without an expired deadline, the broadcast succeeds exactly when every group member did |
| Contexts.ResolveFinds | crates/missive-cli/src/context.rs:620-647 | a resolved selector is an existing id, or the one context with that name |
| Contexts.ContextStore.constructor | crates/missive-store/src/repository.rs:2257-2290 | an empty store |
| Contexts.ContextStore.ListNamed | crates/missive-cli/src/context.rs:588-609 | the contexts carrying a name, without repeats |
| Contexts.ContextStore.ResolveSelector | crates/missive-cli/src/context.rs:620-647 | selector resolution: id first, then a unique name |
| Contexts.ContextStore.IsNameAvailable | crates/missive-cli/src/context.rs:588-609 | a name is available exactly when nobody carries it |
| Contexts.ContextStore.CreateContext | crates/missive-cli/src/context.rs:354-390 | create: error or new row, in the source's order of checks |
| Contexts.ContextStore.ForkContext | crates/missive-cli/src/context.rs:439-484 | fork: error or new child row |
| Contexts.ContextStore.CloseContext | crates/missive-cli/src/context.rs:486-525 | close: error or closed row |
| Contexts.ContextStore.EnsureContext | crates/missive-cli/src/bcast.rs:441-460 | the unnamed context a collective makes when it is missing |
| Contexts.AddingKeeps | crates/missive-cli/src/context.rs:364-378 | a freshly named child of an existing parent keeps the forest |
| Contexts.ReplacingKeeps | crates/missive-cli/src/context.rs:496-509 | closing a row keeps the forest |
| Contexts.CommandKeepsInv | crates/missive-cli/src/context.rs:354-525 | every command keeps unique names, existing parents and the ranking |
| Contexts.RunsKeepInv | crates/missive-cli/src/context.rs:354-525 | so does every run |
| Contexts.AncestorRank | crates/missive-cli/src/context.rs:449-469 | climbing parents lowers the rank at each step |
| Contexts.ForestOnEveryRun | crates/missive-cli/src/context.rs:354-525 | on every run no context is its own ancestor and every chain of parents is finite |
| Contexts.CommandKeepsParents | crates/missive-cli/src/context.rs:354-525 | no command changes the parent of an existing context |
| Contexts.RunsKeepParents | crates/missive-cli/src/context.rs:354-525 | neither does any run |
| Contexts.LineageIsForever | crates/missive-cli/src/context.rs:354-525 | the whole line of ancestors of a context stays the same on every continuation of a run |
| Contexts.ForkExtendsLineage | crates/missive-cli/src/context.rs:439-484 | a fork adds exactly one open row with the given name and summary, the given or inherited agent, and the resolved parent; its line is its parent's, one step further |
| Contexts.CommandsSucceedExactly | crates/missive-cli/src/context.rs:354-525 | when creating, forking and closing succeed; a refused command changes nothing |
| Contexts.CommandsLeave | crates/missive-cli/src/context.rs:354-525 | what creating, closing and the automatic creation leave: one row, the first closing time, the new or old summary |
| Contexts.NeverAmbiguous | crates/missive-cli/src/context.rs:620-647 | on every run the ambiguous-name error is unreachable |
| Contexts.NameSelectsExactly | crates/missive-cli/src/context.rs:620-647 | a name selects its context if and only if it is not another context's id |
| Contexts.ShadowedName | crates/missive-cli/src/context.rs:620-647 | a run in which a name is shadowed by an id |
| Contexts.CommandKeepsClosed | crates/missive-cli/src/context.rs:354-525 | no command reopens a closed context or changes its closing time |
| Contexts.ClosedForGood | crates/missive-cli/src/context.rs:354-525 | for every run and every continuation a closed context stays closed with its first closing time, and only its summary may change |
| Contexts.CloseIsStable | crates/missive-cli/src/context.rs:486-509 | closing twice by one selector resolves to the same context both times, keeps the first closing time, the name and the parent, and leaves every other context alone |

## Left out

- HTTP, TLS, headers and URL syntax: a remote call is an arbitrary outcome (for the cache, one constrained by an honest-server predicate), and URL validity is a predicate given to negotiation.
- SQLite, migrations, locks and foreign keys: tables are maps or lists; whether a row's references are stored, and whether a referenced agent can be deleted, are given as flags.
- JSON encoding and decoding: the identity, or a predicate saying which payloads decode.
- Rendering, redaction, exit codes and tracing.
- Event records other than the broadcast's member events are not written by the models.
- Identifier and option syntax (`inputOk` flags stand for those checks), and parsing of the broadcast reference read by the barrier.
- Barrier.RunBarrier: the clock is given as readings with sleeps at least as long as requested; `Instant` and the thread are not modelled, and the initial task ids are arbitrary.
- Journal.Tail.Run: the journals met by the polls are a finite list with a flag for the timeout; the sleep between them is not modelled, and a tail without timeout or limit is seen only up to any number of polls.
- AgentCache.Registry.SyncConfigAgents: the fields the cache does not read are one `settings` value.
- AgentCache.RefreshIsCurrent: stated for the server's card at the time of the answer; later publications are met by the next refresh.
- Broadcast.RunConcurrent: threads are joined outcomes; a timeout is part of a member's outcome, wall-clock races are not modelled, and errors that abort a run carry no text.
- FileDropAdapter.RunFileDropAdapter: one worker; the deadline is a number of sleeps, and what others do while it sleeps is given; changes by others during a pass are covered by `FileDrop.Run` rather than by the method.
- FileDrop.UniquePath: with several workers completing the same file name, check and rename are not one step; only one worker is modelled.
- FileDrop.RunsConserveRequests: the four directories are distinct, and file names are character strings (no names that are not Unicode).
- Sse.ReadSseRecords: the text is given whole as UTF-8 bytes, one character each, with the number of the read call that fails, if any.
- Artifacts.TextStreamPayload: JSON payloads stay symbolic, and the metadata keys that only display code reads are left out.
- ExportNames.ExportFileNames: names only; writing the files and the `--force` rule are left out.
- Durations.ParseDuration: whole milliseconds, as all the accepted suffixes give.
- The doctor, gateway, auth and completion commands, and frame field validation: each is settled by reading one branch.

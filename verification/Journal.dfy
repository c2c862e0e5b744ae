/** Listing, paging and tailing the event journal. */
module Journal {
  import opened Common
  import opened Replay

  datatype Filters = Filters(
    agent: Option<string>, context: Option<string>, task: Option<string>, source: Option<string>,
    eventType: Option<string>, since: Option<int>, afterSequence: Option<int>)

  predicate Selects<T(==)>(wanted: Option<T>, actual: Option<T>) {
    wanted.None? || actual == wanted
  }

  predicate Matches(f: Filters, e: EventRecord) {
    && Selects(f.agent, e.agent) && Selects(f.context, e.context) && Selects(f.task, e.task)
    && Selects(f.source, Some(e.source)) && Selects(f.eventType, Some(e.eventType))
    && (f.since.Some? ==> e.timestamp >= f.since.value)
    && (f.afterSequence.Some? ==> e.sequence > f.afterSequence.value)
  }

  const ALL: Filters := Filters(None, None, None, None, None, None, None)

  /** Each filter alone selects by its own field; together they select what each selects. */
  lemma FiltersCombine(f: Filters, e: EventRecord)
    ensures Matches(ALL, e)
    ensures forall a :: Matches(ALL.(agent := Some(a)), e) <==> e.agent == Some(a)
    ensures forall c :: Matches(ALL.(context := Some(c)), e) <==> e.context == Some(c)
    ensures forall t :: Matches(ALL.(task := Some(t)), e) <==> e.task == Some(t)
    ensures forall s :: Matches(ALL.(source := Some(s)), e) <==> e.source == s
    ensures forall t :: Matches(ALL.(eventType := Some(t)), e) <==> e.eventType == t
    ensures forall time :: Matches(ALL.(since := Some(time)), e) <==> time <= e.timestamp
    ensures forall n :: Matches(ALL.(afterSequence := Some(n)), e) <==> n < e.sequence
    ensures Matches(f, e) <==>
              && Matches(ALL.(agent := f.agent), e) && Matches(ALL.(context := f.context), e)
              && Matches(ALL.(task := f.task), e) && Matches(ALL.(source := f.source), e)
              && Matches(ALL.(eventType := f.eventType), e) && Matches(ALL.(since := f.since), e)
              && Matches(ALL.(afterSequence := f.afterSequence), e)
  {
  }

  /** The journal lists events by strictly increasing sequence. */
  predicate Ascending(events: seq<EventRecord>) {
    forall i, j :: 0 <= i < j < |events| ==> events[i].sequence < events[j].sequence
  }

  function Matching(f: Filters, events: seq<EventRecord>): seq<EventRecord> {
    Filter(events, (e: EventRecord) => Matches(f, e))
  }

  function FirstOf<T>(xs: seq<T>, limit: Option<nat>): (r: seq<T>)
    ensures r <= xs && (limit.None? ==> r == xs)
    ensures limit.Some? ==> |r| <= limit.value && (|r| == limit.value || r == xs)
  {
    if limit.Some? && limit.value < |xs| then xs[..limit.value] else xs
  }

  method FilteredEvents(events: seq<EventRecord>, f: Filters, limit: Option<nat>) returns (records: seq<EventRecord>)
    ensures records == FirstOf(Matching(f, events), limit)
  {
    if limit == Some(0) { return []; }
    records := [];
    for i := 0 to |events|
      invariant records == Matching(f, events[..i])
      invariant limit.Some? ==> |records| < limit.value
    {
      assert events[..i + 1] == events[..i] + [events[i]];
      FilterSnoc(events[..i], events[i], (e: EventRecord) => Matches(f, e));
      if Matches(f, events[i]) {
        records := records + [events[i]];
        if limit.Some? && |records| >= limit.value {
          assert events == events[..i + 1] + events[i + 1..];
          FilterConcat(events[..i + 1], events[i + 1..], (e: EventRecord) => Matches(f, e));
          return;
        }
      }
    }
    assert events[..|events|] == events;
  }

  // ----- Paging -----

  lemma {:induction false} MatchingIsAscending(f: Filters, events: seq<EventRecord>)
    requires Ascending(events)
    ensures Ascending(Matching(f, events))
  {
    if events != [] {
      var init, last := events[..|events| - 1], events[|events| - 1];
      MatchingIsAscending(f, init);
      FilterMembers(init, (e: EventRecord) => Matches(f, e));
      forall i | 0 <= i < |Matching(f, init)| ensures Matching(f, init)[i].sequence < last.sequence {
        assert Matching(f, init)[i] in init;
        var j :| 0 <= j < |init| && init[j] == Matching(f, init)[i];
        assert events[j].sequence < last.sequence;
      }
    }
  }

  /** Moving the cursor to a match drops exactly the matches up to it. */
  lemma CursorDropsPrefix(f: Filters, events: seq<EventRecord>, n: nat)
    requires Ascending(events) && 0 < n <= |Matching(f, events)|
    ensures var all := Matching(f, events);
            Matching(f.(afterSequence := Some(all[n - 1].sequence)), events) == all[n..]
  {
    var all := Matching(f, events);
    var cursor := all[n - 1].sequence;
    var next := f.(afterSequence := Some(cursor));
    MatchingIsAscending(f, events);
    assert Matches(f, all[n - 1]) by {
      FilterMembers(events, (e: EventRecord) => Matches(f, e));
      assert all[n - 1] in all;
    }
    LaterCursor(f, cursor);
    FilterFilter(events, (e: EventRecord) => Matches(f, e), (e: EventRecord) => e.sequence > cursor,
                 (e: EventRecord) => Matches(next, e));
    assert all == all[..n] + all[n..];
    CutAt(all[..n], all[n..], cursor);
  }

  lemma LaterCursor(f: Filters, cursor: int)
    requires f.afterSequence.Some? ==> cursor > f.afterSequence.value
    ensures forall e :: Matches(f.(afterSequence := Some(cursor)), e) <==> Matches(f, e) && e.sequence > cursor
  {
  }

  lemma CutAt(xs: seq<EventRecord>, ys: seq<EventRecord>, cursor: int)
    requires forall i :: 0 <= i < |xs| ==> xs[i].sequence <= cursor
    requires forall i :: 0 <= i < |ys| ==> ys[i].sequence > cursor
    ensures Filter(xs + ys, (e: EventRecord) => e.sequence > cursor) == ys
  {
    FilterConcat(xs, ys, (e: EventRecord) => e.sequence > cursor);
    KeepsNone(xs, cursor);
    KeepsAll(ys, cursor);
    assert [] + ys == ys;
  }

  lemma {:induction false} KeepsNone(events: seq<EventRecord>, cursor: int)
    requires forall i :: 0 <= i < |events| ==> events[i].sequence <= cursor
    ensures Filter(events, (e: EventRecord) => e.sequence > cursor) == []
  {
    if events != [] { KeepsNone(events[..|events| - 1], cursor); }
  }

  lemma {:induction false} KeepsAll(events: seq<EventRecord>, cursor: int)
    requires forall i :: 0 <= i < |events| ==> events[i].sequence > cursor
    ensures Filter(events, (e: EventRecord) => e.sequence > cursor) == events
  {
    if events != [] {
      SplitLast(events);
      KeepsAll(events[..|events| - 1], cursor);
    }
  }

  /** Repeated listings, each starting after the last sequence returned, until one comes back empty. */
  function Pages(events: seq<EventRecord>, f: Filters, limit: nat): seq<seq<EventRecord>>
    requires limit > 0 && Ascending(events)
    decreases |Matching(f, events)|
  {
    var page := FirstOf(Matching(f, events), Some(limit));
    if page == [] then []
    else
      CursorDropsPrefix(f, events, |page|);
      [page] + Pages(events, f.(afterSequence := Some(page[|page| - 1].sequence)), limit)
  }

  function Flatten<T>(xss: seq<seq<T>>): seq<T> {
    if xss == [] then [] else xss[0] + Flatten(xss[1..])
  }

  /** Paging covers the unlimited listing, without gap or repeat. */
  lemma {:induction false} PagesCoverListing(events: seq<EventRecord>, f: Filters, limit: nat)
    requires limit > 0 && Ascending(events)
    ensures Flatten(Pages(events, f, limit)) == Matching(f, events)
    ensures forall i :: 0 <= i < |Pages(events, f, limit)| - 1 ==> |Pages(events, f, limit)[i]| == limit
    decreases |Matching(f, events)|
  {
    var page := FirstOf(Matching(f, events), Some(limit));
    if page != [] {
      CursorDropsPrefix(f, events, |page|);
      var next := f.(afterSequence := Some(page[|page| - 1].sequence));
      PagesCoverListing(events, next, limit);
      assert Pages(events, f, limit)[1..] == Pages(events, next, limit);
    }
  }

  // ----- Tailing -----

  /** The journal found by each poll, and whether the timeout has passed after it. */
  datatype Poll = Poll(journal: seq<EventRecord>, expired: bool)

  /** Appended to, at ever larger sequences; rows are never changed or removed. */
  ghost predicate Growing(polls: seq<Poll>) {
    && (forall i :: 0 <= i < |polls| ==> Ascending(polls[i].journal))
    && (forall i, j :: 0 <= i <= j < |polls| ==> polls[i].journal <= polls[j].journal)
  }

  predicate InWindow(f: Filters, low: int, high: int, e: EventRecord) {
    Matches(f, e) && low < e.sequence <= high
  }

  /** All matching events after `low`, up to `high`. */
  function Window(f: Filters, events: seq<EventRecord>, low: int, high: int): seq<EventRecord> {
    Filter(events, (e: EventRecord) => InWindow(f, low, high, e))
  }

  function After(events: seq<EventRecord>, cursor: int): seq<EventRecord> {
    Filter(events, (e: EventRecord) => e.sequence > cursor)
  }

  function NewCursor(events: seq<EventRecord>, cursor: int): int {
    if events != [] && events[|events| - 1].sequence > cursor then events[|events| - 1].sequence else cursor
  }

  lemma NewCursorIsLastNew(events: seq<EventRecord>, cursor: int)
    requires Ascending(events)
    ensures var arrived := After(events, cursor);
            NewCursor(events, cursor) == if arrived == [] then cursor else arrived[|arrived| - 1].sequence
  {
    if events != [] {
      SplitLast(events);
      var last := events[|events| - 1];
      if last.sequence <= cursor {
        KeepsNone(events, cursor);
      }
    }
  }

  /** The cursor moves to the greatest sequence there is, and never back. */
  lemma NewCursorIsGreatest(events: seq<EventRecord>, cursor: int)
    requires Ascending(events)
    ensures var r := NewCursor(events, cursor);
            && cursor <= r && (forall e :: e in events ==> e.sequence <= r)
            && (r == cursor || exists e :: e in events && e.sequence == r)
  {
    forall e | e in events ensures e.sequence <= NewCursor(events, cursor) {
      var i :| 0 <= i < |events| && events[i] == e;
      assert i < |events| - 1 ==> events[i].sequence < events[|events| - 1].sequence;
    }
    assert events != [] ==> events[|events| - 1] in events;
  }

  /** A window of an old journal is unchanged by growth beyond its upper end. */
  lemma WindowStable(f: Filters, earlier: seq<EventRecord>, later: seq<EventRecord>, low: int, high: int)
    requires Ascending(later) && earlier <= later && NewCursor(earlier, low) <= high
    requires forall i :: |earlier| <= i < |later| ==> later[i].sequence > high
    ensures Window(f, later, low, high) == Window(f, earlier, low, high)
  {
    var rest := later[|earlier|..];
    assert later == earlier + rest;
    FilterConcat(earlier, rest, (e: EventRecord) => InWindow(f, low, high, e));
    NothingIn(f, rest, low, high);
  }

  lemma {:induction false} NothingIn(f: Filters, events: seq<EventRecord>, low: int, high: int)
    requires forall i :: 0 <= i < |events| ==> events[i].sequence > high || events[i].sequence <= low
    ensures Window(f, events, low, high) == []
  {
    if events != [] { NothingIn(f, events[..|events| - 1], low, high); }
  }

  /** Consecutive windows join. */
  lemma {:induction false} WindowsJoin(f: Filters, events: seq<EventRecord>, low: int, middle: int, high: int)
    requires Ascending(events) && low <= middle <= high
    ensures Window(f, events, low, high) == Window(f, events, low, middle) + Window(f, events, middle, high)
  {
    if events != [] {
      var init, last := events[..|events| - 1], events[|events| - 1];
      SplitLast(events);
      WindowsJoin(f, init, low, middle, high);
      if last.sequence <= middle {
        NothingIn(f, init, middle, high);
      }
    }
  }

  /** What one poll adds, when the cursor moves to the newest event. */
  lemma FreshMatches(f: Filters, events: seq<EventRecord>, cursor: int)
    requires Ascending(events)
    ensures Matching(f, After(events, cursor)) == Window(f, events, cursor, NewCursor(events, cursor))
  {
    var high := NewCursor(events, cursor);
    forall e | e in events && e.sequence > cursor ensures e.sequence <= high {
      var i :| 0 <= i < |events| && events[i] == e;
      assert i == |events| - 1 || events[i].sequence < events[|events| - 1].sequence;
    }
    FilterFilter(events, (e: EventRecord) => e.sequence > cursor, (e: EventRecord) => Matches(f, e),
                 (e: EventRecord) => InWindow(f, cursor, high, e));
  }

  datatype TailEnd = LimitReached | TimedOut | NothingWanted | StillWaiting

  /** Size of the emission at which a limited tail returns: at least one event, even for limit 0. */
  function StopAt(limit: nat): (r: nat)
    ensures r > 0 && (limit > 0 ==> r == limit) && (limit == 0 ==> r == 1)
  {
    if limit == 0 then 1 else limit
  }

  class Tail {
    const filters: Filters
    const limit: Option<nat>
    const fromSequence: int
    var lastSeen: int
    var collected: seq<EventRecord>

    constructor (filters: Filters, limit: Option<nat>, start: Option<int>, journal: seq<EventRecord>)
      ensures this.filters == filters && this.limit == limit && collected == []
      ensures fromSequence == lastSeen == (if start.Some? then start.value
                                           else if journal == [] then 0 else journal[|journal| - 1].sequence)
    {
      this.filters, this.limit, collected := filters, limit, [];
      var from := if start.Some? then start.value else if journal == [] then 0 else journal[|journal| - 1].sequence;
      fromSequence, lastSeen := from, from;
    }

    /** One poll: moves the cursor past all new events, then emits the matching ones until the limit. */
    method PollOnce(journal: seq<EventRecord>) returns (full: bool)
      requires Ascending(journal)
      requires limit.Some? ==> |collected| < StopAt(limit.value)
      modifies this`lastSeen, this`collected
      ensures lastSeen == NewCursor(journal, old(lastSeen))
      ensures var all := old(collected) + Window(filters, journal, old(lastSeen), lastSeen);
              && (full <==> limit.Some? && |all| >= StopAt(limit.value))
              && collected == if full then all[..StopAt(limit.value)] else all
    {
      var arrived := After(journal, lastSeen);
      NewCursorIsLastNew(journal, lastSeen);
      FreshMatches(filters, journal, lastSeen);
      if arrived != [] { lastSeen := arrived[|arrived| - 1].sequence; }
      full := Emit(arrived);
    }

    /** Emits the matching events one by one, stopping at the limit. */
    method Emit(arrived: seq<EventRecord>) returns (full: bool)
      requires limit.Some? ==> |collected| < StopAt(limit.value)
      modifies this`collected
      ensures var all := old(collected) + Matching(filters, arrived);
              && (full <==> limit.Some? && |all| >= StopAt(limit.value))
              && collected == if full then all[..StopAt(limit.value)] else all
    {
      ghost var before := collected;
      for i := 0 to |arrived|
        invariant collected == before + Matching(filters, arrived[..i])
        invariant limit.Some? ==> |collected| < StopAt(limit.value)
      {
        ghost var rest := arrived[i + 1..];
        assert arrived[..i + 1] == arrived[..i] + [arrived[i]];
        FilterSnoc(arrived[..i], arrived[i], (e: EventRecord) => Matches(filters, e));
        if Matches(filters, arrived[i]) {
          collected := collected + [arrived[i]];
          if limit.Some? && |collected| >= limit.value {
            assert arrived == arrived[..i + 1] + rest;
            FilterConcat(arrived[..i + 1], rest, (e: EventRecord) => Matches(filters, e));
            Regroup(before, Matching(filters, arrived[..i]), [arrived[i]]);
            Regroup(before, Matching(filters, arrived[..i + 1]), Matching(filters, rest));
            return true;
          }
        }
      }
      assert arrived[..|arrived|] == arrived;
      return false;
    }

    /** Everything matching in `journal` after the start has been collected. */
    ghost predicate SeenSoFar(journal: seq<EventRecord>, from: int)
      reads this
    {
      lastSeen == NewCursor(journal, from) && collected == Window(filters, journal, from, lastSeen)
    }

    /** What a poll finds does not fill the limit, nor is limit 0 given. */
    predicate GoesOn(journal: seq<EventRecord>) {
      limit.Some? ==> limit.value > 0
                      && |Window(filters, journal, fromSequence, NewCursor(journal, fromSequence))| < StopAt(limit.value)
    }

    /** One poll, seen from the start of the tail. */
    method PollFromStart(ghost earlier: seq<EventRecord>, journal: seq<EventRecord>) returns (full: bool)
      requires Ascending(journal) && earlier <= journal && SeenSoFar(earlier, fromSequence)
      requires limit.Some? ==> |collected| < StopAt(limit.value)
      modifies this`lastSeen, this`collected
      ensures lastSeen == NewCursor(journal, fromSequence)
      ensures var window := Window(filters, journal, fromSequence, lastSeen);
              && (full <==> limit.Some? && |window| >= StopAt(limit.value))
              && collected == if full then window[..StopAt(limit.value)] else window
    {
      WindowGrows(filters, earlier, journal, fromSequence);
      full := PollOnce(journal);
    }

    /** The poll loop over the journals it meets. */
    method Run(polls: seq<Poll>) returns (end: TailEnd, count: nat)
      requires Growing(polls) && collected == [] && lastSeen == fromSequence
      modifies this`lastSeen, this`collected
      ensures count <= |polls| && (count == 0 ==> end == StillWaiting && lastSeen == fromSequence && collected == [])
      ensures count > 0 ==>
                var journal := polls[count - 1].journal;
                var window := Window(filters, journal, fromSequence, lastSeen);
                && lastSeen == NewCursor(journal, fromSequence)
                && (end == LimitReached <==> limit.Some? && |window| >= StopAt(limit.value))
                && collected == (if end == LimitReached then window[..StopAt(limit.value)] else window)
                && (end == TimedOut <==> end != LimitReached && polls[count - 1].expired)
                && (end == NothingWanted <==> end != LimitReached && end != TimedOut && limit == Some(0))
                && (end == StillWaiting ==> count == |polls|)
      ensures count == 0 ==> polls == []
      ensures forall k :: 0 <= k < count - 1 ==> !polls[k].expired && GoesOn(polls[k].journal)
    {
      count := 0;
      NothingSeenYet(filters, fromSequence);
      while count < |polls|
        invariant count <= |polls|
        invariant count == 0 ==> SeenSoFar([], fromSequence)
        invariant count > 0 ==>
                    SeenSoFar(polls[count - 1].journal, fromSequence) && limit != Some(0)
        invariant limit.Some? ==> |collected| < StopAt(limit.value)
        invariant forall k :: 0 <= k < count ==> !polls[k].expired && GoesOn(polls[k].journal)
      {
        var poll := polls[count];
        ghost var earlier := if count == 0 then [] else polls[count - 1].journal;
        assert Ascending(poll.journal) && earlier <= poll.journal;
        var full := PollFromStart(earlier, poll.journal);
        count := count + 1;
        if full { return LimitReached, count; }
        if poll.expired { return TimedOut, count; }
        if limit == Some(0) { return NothingWanted, count; }
      }
      return StillWaiting, count;
    }
  }

  lemma NothingSeenYet(f: Filters, from: int)
    ensures Window(f, [], from, from) == [] && NewCursor([], from) == from
  {
  }

  /** Seen from the start: what was collected of the earlier journal, then the new window. */
  lemma WindowGrows(f: Filters, earlier: seq<EventRecord>, journal: seq<EventRecord>, from: int)
    requires Ascending(journal) && earlier <= journal
    ensures var seen := NewCursor(earlier, from);
            && NewCursor(journal, seen) == NewCursor(journal, from)
            && Window(f, journal, from, NewCursor(journal, from)) ==
               Window(f, earlier, from, seen) + Window(f, journal, seen, NewCursor(journal, from))
  {
    var seen := NewCursor(earlier, from);
    var high := NewCursor(journal, from);
    if earlier == [] {
      assert seen == from;
      NothingIn(f, journal, from, from);
      assert Window(f, earlier, from, from) == [];
    } else {
      assert earlier[|earlier| - 1] == journal[|earlier| - 1];
      WindowsJoin(f, journal, from, seen, high);
      if earlier[|earlier| - 1].sequence > from {
        WindowStable(f, earlier, journal, from, seen);
      } else {
        NothingIn(f, earlier, from, seen);
        NothingIn(f, journal, from, seen);
      }
    }
  }
}

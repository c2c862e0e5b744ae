/** Contexts: creation, forking, closing, and selection by id or name. */
module Contexts {
  import opened Common

  datatype State = Open | Closed

  datatype ContextRecord = ContextRecord(
    id: string, agent: Option<string>, name: Option<string>, parent: Option<string>,
    state: State, summary: Option<string>, closedAt: Option<int>)

  type Store = map<string, ContextRecord>

  datatype ContextError = AlreadyExists | NameInUse | UnknownSelector | AmbiguousName | BadInput

  /** What one command is given; checks outside the model decide `inputOk`. */
  datatype Command =
    | Create(id: string, name: Option<string>, agent: Option<string>, summary: Option<string>, inputOk: bool)
    | Fork(selector: string, id: string, name: Option<string>, agent: Option<string>, summary: Option<string>, inputOk: bool)
    | Close(selector: string, summary: Option<string>, inputOk: bool, now: int)
    | Ensure(id: string, agent: Option<string>, summary: Option<string>)

  function Named(store: Store, name: string): set<string> {
    set id | id in store && store[id].name == Some(name)
  }

  predicate NameAvailable(store: Store, name: Option<string>) {
    name.Some? ==> Named(store, name.value) == {}
  }

  lemma OneNamed(store: Store, name: string, id: string)
    requires Named(store, name) == {id}
    ensures id in store && store[id].name == Some(name)
    ensures forall other :: other in store && store[other].name == Some(name) ==> other == id
  {
    assert id in Named(store, name);
    forall other | other in store && store[other].name == Some(name) ensures other == id {
      assert other in Named(store, name);
    }
  }

  /** A known id wins; otherwise exactly one context must carry the name. */
  ghost function Resolve(store: Store, selector: string): Result<string, ContextError> {
    if selector in store then Ok(selector)
    else if Named(store, selector) == {} then Err(UnknownSelector)
    else if exists id :: Named(store, selector) == {id} then
      var id :| Named(store, selector) == {id};
      Ok(id)
    else Err(AmbiguousName)
  }

  function Created(c: Command): ContextRecord
    requires c.Create?
  {
    ContextRecord(c.id, c.agent, c.name, None, Open, c.summary, None)
  }

  function Forked(c: Command, parent: ContextRecord): ContextRecord
    requires c.Fork?
  {
    ContextRecord(c.id, OrElse(c.agent, parent.agent), c.name, Some(parent.id), Open, c.summary, None)
  }

  function ClosedBy(c: Command, record: ContextRecord): ContextRecord
    requires c.Close?
  {
    record.(state := Closed, summary := OrElse(c.summary, record.summary), closedAt := OrElse(record.closedAt, Some(c.now)))
  }

  ghost function Complaint(store: Store, c: Command): Option<ContextError> {
    match c
    case Create(id, name, _, _, inputOk) =>
      if id in store then Some(AlreadyExists)
      else if !NameAvailable(store, name) then Some(NameInUse)
      else if !inputOk then Some(BadInput) else None
    case Fork(selector, id, name, _, _, inputOk) =>
      var parent := Resolve(store, selector);
      if parent.Err? then Some(parent.error)
      else if id in store then Some(AlreadyExists)
      else if !NameAvailable(store, name) then Some(NameInUse)
      else if !inputOk then Some(BadInput) else None
    case Close(selector, _, inputOk, _) =>
      var target := Resolve(store, selector);
      if target.Err? then Some(target.error) else if !inputOk then Some(BadInput) else None
    case Ensure(_, _, _) => None
  }

  /** The store after a command; a refused command changes nothing. */
  ghost function After(store: Store, c: Command): Store {
    if Complaint(store, c).Some? then store
    else
      match c
      case Create(id, _, _, _, _) => store[id := Created(c)]
      case Fork(selector, id, _, _, _, _) =>
        var parent := Resolve(store, selector).value;
        if parent in store then store[id := Forked(c, store[parent])] else store
      case Close(selector, _, _, _) =>
        var target := Resolve(store, selector).value;
        if target in store then store[target := ClosedBy(c, store[target])] else store
      case Ensure(id, agent, summary) =>
        if id in store then store else store[id := ContextRecord(id, agent, None, None, Open, summary, None)]
  }

  lemma ResolveFinds(store: Store, selector: string)
    ensures var r := Resolve(store, selector);
            r.Ok? ==> r.value in store && (selector in store ==> r.value == selector)
                      && (selector !in store ==> store[r.value].name == Some(selector))
  {
    var r := Resolve(store, selector);
    if r.Ok? && selector !in store { OneNamed(store, selector, r.value); }
  }

  class ContextStore {
    var rows: Store

    constructor ()
      ensures rows == map[]
    {
      rows := map[];
    }

    method ListNamed(name: string) returns (ids: seq<string>)
      ensures forall id :: id in ids <==> id in Named(rows, name)
      ensures forall i, j :: 0 <= i < j < |ids| ==> ids[i] != ids[j]
    {
      ids := [];
      var rest := rows.Keys;
      while rest != {}
        invariant rest <= rows.Keys
        invariant forall id :: id in ids <==> id in Named(rows, name) && id !in rest
        invariant forall i, j :: 0 <= i < j < |ids| ==> ids[i] != ids[j]
        decreases |rest|
      {
        var id :| id in rest;
        if rows[id].name == Some(name) { ids := ids + [id]; }
        rest := rest - {id};
      }
    }

    method ResolveSelector(selector: string) returns (r: Result<string, ContextError>)
      ensures r == Resolve(rows, selector)
    {
      if selector in rows { return Ok(selector); }
      var matches := ListNamed(selector);
      if |matches| == 1 {
        assert matches[0] in matches;
        forall id ensures id in Named(rows, selector) <==> id == matches[0] { assert id in matches <==> id == matches[0]; }
        assert Named(rows, selector) == {matches[0]};
        return Ok(matches[0]);
      }
      if |matches| == 0 { return Err(UnknownSelector); }
      assert matches[0] in matches && matches[1] in matches;
      forall id ensures Named(rows, selector) != {id} {
        if Named(rows, selector) == {id} { OneNamed(rows, selector, id); }
      }
      return Err(AmbiguousName);
    }

    method IsNameAvailable(name: Option<string>) returns (available: bool)
      ensures available == NameAvailable(rows, name)
    {
      if name.None? { return true; }
      var holders := ListNamed(name.value);
      assert |holders| > 0 ==> holders[0] in holders;
      return |holders| == 0;
    }

    method CreateContext(c: Command) returns (error: Option<ContextError>)
      requires c.Create?
      modifies this
      ensures error == Complaint(old(rows), c) && rows == After(old(rows), c)
    {
      if c.id in rows { return Some(AlreadyExists); }
      var available := IsNameAvailable(c.name);
      if !available { return Some(NameInUse); }
      if !c.inputOk { return Some(BadInput); }
      rows := rows[c.id := Created(c)];
      return None;
    }

    method ForkContext(c: Command) returns (error: Option<ContextError>)
      requires c.Fork?
      modifies this
      ensures error == Complaint(old(rows), c) && rows == After(old(rows), c)
    {
      var parent := ResolveSelector(c.selector);
      ResolveFinds(rows, c.selector);
      if parent.Err? { return Some(parent.error); }
      if c.id in rows { return Some(AlreadyExists); }
      var available := IsNameAvailable(c.name);
      if !available { return Some(NameInUse); }
      if !c.inputOk { return Some(BadInput); }
      rows := rows[c.id := Forked(c, rows[parent.value])];
      return None;
    }

    method CloseContext(c: Command) returns (error: Option<ContextError>)
      requires c.Close?
      modifies this
      ensures error == Complaint(old(rows), c) && rows == After(old(rows), c)
    {
      var target := ResolveSelector(c.selector);
      ResolveFinds(rows, c.selector);
      if target.Err? { return Some(target.error); }
      if !c.inputOk { return Some(BadInput); }
      rows := rows[target.value := ClosedBy(c, rows[target.value])];
      return None;
    }

    /** The unnamed context a collective or an incoming task makes when it is missing. */
    method EnsureContext(c: Command) returns (created: bool)
      requires c.Ensure?
      modifies this
      ensures rows == After(old(rows), c) && created == (c.id !in old(rows))
    {
      created := c.id !in rows;
      if created {
        rows := rows[c.id := ContextRecord(c.id, c.agent, None, None, Open, c.summary, None)];
      }
    }
  }

  // ----- What every run keeps -----

  ghost predicate UniqueNames(store: Store) {
    forall a, b :: a in store && b in store && store[a].name.Some? && store[a].name == store[b].name ==> a == b
  }

  ghost predicate ParentsExist(store: Store) {
    forall a :: a in store ==> store[a].id == a && (store[a].parent.Some? ==> store[a].parent.value in store)
  }

  ghost predicate ClosedHaveTimes(store: Store) {
    forall a :: a in store ==> (store[a].state.Closed? <==> store[a].closedAt.Some?)
  }

  /** Ranks prove the forest: every parent was there before its child. */
  ghost predicate Ranked(store: Store, rank: map<string, nat>) {
    && rank.Keys == store.Keys
    && forall a :: a in store && store[a].parent.Some? ==> store[a].parent.value in rank && rank[store[a].parent.value] < rank[a]
  }

  ghost predicate Inv(store: Store) {
    UniqueNames(store) && ParentsExist(store) && ClosedHaveTimes(store) && exists rank :: Ranked(store, rank)
  }

  /** A new row, unnamed or freshly named, hanging from an existing parent or none. */
  lemma AddingKeeps(store: Store, id: string, record: ContextRecord)
    requires Inv(store) && id !in store && record.id == id && NameAvailable(store, record.name)
    requires record.parent.Some? ==> record.parent.value in store
    requires record.state.Open? && record.closedAt.None?
    ensures Inv(store[id := record])
  {
    var rank :| Ranked(store, rank);
    var top: nat := if record.parent.Some? then rank[record.parent.value] + 1 else 0;
    assert Ranked(store[id := record], rank[id := top]);
    assert record.name.Some? ==>
             forall a :: a in store && store[a].name == record.name ==> a in Named(store, record.name.value);
  }

  lemma ReplacingKeeps(store: Store, id: string, record: ContextRecord)
    requires Inv(store) && id in store
    requires record.id == id && record.name == store[id].name && record.parent == store[id].parent
    requires record.state.Closed? <==> record.closedAt.Some?
    ensures Inv(store[id := record])
  {
    var store' := store[id := record];
    assert exists rank :: Ranked(store', rank) by {
      var rank :| Ranked(store, rank);
      assert Ranked(store', rank);
    }
    SameNamesStayUnique(store, store');
    assert ParentsExist(store');
    assert ClosedHaveTimes(store');
  }

  lemma SameNamesStayUnique(store: Store, store': Store)
    requires UniqueNames(store) && store'.Keys == store.Keys
    requires forall a :: a in store ==> store'[a].name == store[a].name
    ensures UniqueNames(store')
  {
  }

  lemma CommandKeepsInv(store: Store, c: Command)
    requires Inv(store)
    ensures Inv(After(store, c))
  {
    if Complaint(store, c).None? {
      match c
      case Create(id, _, _, _, _) => AddingKeeps(store, id, Created(c));
      case Fork(selector, id, _, _, _, _) =>
        ResolveFinds(store, selector);
        AddingKeeps(store, id, Forked(c, store[Resolve(store, selector).value]));
      case Close(selector, _, _, _) =>
        ResolveFinds(store, selector);
        var target := Resolve(store, selector).value;
        ReplacingKeeps(store, target, ClosedBy(c, store[target]));
      case Ensure(id, agent, summary) =>
        if id !in store { AddingKeeps(store, id, ContextRecord(id, agent, None, None, Open, summary, None)); }
    }
  }

  ghost function Run(commands: seq<Command>): Store {
    if commands == [] then map[] else After(Run(commands[..|commands| - 1]), commands[|commands| - 1])
  }

  lemma {:induction false} RunsKeepInv(commands: seq<Command>)
    ensures Inv(Run(commands))
  {
    if commands == [] {
      assert Ranked(map[], map[]);
    } else {
      RunsKeepInv(commands[..|commands| - 1]);
      CommandKeepsInv(Run(commands[..|commands| - 1]), commands[|commands| - 1]);
    }
  }

  // ----- Ancestors -----

  /** Climbing `steps` parents from `id` stays in the store. */
  ghost predicate Climbs(store: Store, id: string, steps: nat)
    decreases steps
  {
    id in store && (steps > 0 ==> store[id].parent.Some? && Climbs(store, store[id].parent.value, steps - 1))
  }

  ghost function Ancestor(store: Store, id: string, steps: nat): string
    requires Climbs(store, id, steps)
    decreases steps
  {
    if steps == 0 then id else Ancestor(store, store[id].parent.value, steps - 1)
  }

  ghost predicate NoHigher(store: Store, id: string, height: nat) {
    forall steps: nat :: Climbs(store, id, steps) ==> steps <= height
  }

  lemma {:induction false} AncestorRank(store: Store, rank: map<string, nat>, id: string, steps: nat)
    requires Ranked(store, rank) && Climbs(store, id, steps)
    ensures Ancestor(store, id, steps) in rank && rank[Ancestor(store, id, steps)] + steps <= rank[id]
    decreases steps
  {
    if steps > 0 { AncestorRank(store, rank, store[id].parent.value, steps - 1); }
  }

  /** On every run no context is its own ancestor, and every chain of parents ends. */
  lemma ForestOnEveryRun(commands: seq<Command>, id: string)
    requires id in Run(commands)
    ensures forall steps: nat :: steps > 0 && Climbs(Run(commands), id, steps) ==> Ancestor(Run(commands), id, steps) != id
    ensures exists height: nat :: NoHigher(Run(commands), id, height)
  {
    var store := Run(commands);
    RunsKeepInv(commands);
    var rank :| Ranked(store, rank);
    forall steps: nat | Climbs(store, id, steps)
      ensures steps <= rank[id] && (steps > 0 ==> Ancestor(store, id, steps) != id)
    {
      AncestorRank(store, rank, id, steps);
    }
    assert NoHigher(store, id, rank[id]);
  }

  /** Stores where every context of the first has the same parent in the second. */
  predicate SameParents(store: Store, store': Store) {
    forall id :: id in store ==> id in store' && store'[id].parent == store[id].parent
  }

  lemma {:induction false} SameLineage(store: Store, store': Store, id: string, steps: nat)
    requires ParentsExist(store) && SameParents(store, store') && id in store
    ensures Climbs(store, id, steps) <==> Climbs(store', id, steps)
    ensures Climbs(store, id, steps) ==> Ancestor(store, id, steps) == Ancestor(store', id, steps)
    decreases steps
  {
    if steps > 0 && store[id].parent.Some? {
      SameLineage(store, store', store[id].parent.value, steps - 1);
    }
  }

  lemma {:induction false} RunsKeepParents(commands: seq<Command>, later: seq<Command>)
    ensures SameParents(Run(commands), Run(commands + later))
  {
    if later == [] {
      assert commands + later == commands;
    } else {
      var init, last := later[..|later| - 1], later[|later| - 1];
      RunsKeepParents(commands, init);
      assert (commands + later)[..|commands + later| - 1] == commands + init;
      RunsKeepInv(commands + init);
      CommandKeepsParents(Run(commands + init), last);
    }
  }

  lemma CommandKeepsParents(store: Store, c: Command)
    requires Inv(store)
    ensures SameParents(store, After(store, c))
  {
    if c.Close? { ResolveFinds(store, c.selector); }
  }

  /** A context's line of ancestors never changes once it exists. */
  lemma LineageIsForever(commands: seq<Command>, later: seq<Command>, id: string, steps: nat)
    requires id in Run(commands)
    ensures Climbs(Run(commands), id, steps) <==> Climbs(Run(commands + later), id, steps)
    ensures Climbs(Run(commands), id, steps) ==>
              Ancestor(Run(commands), id, steps) == Ancestor(Run(commands + later), id, steps)
  {
    RunsKeepInv(commands);
    RunsKeepParents(commands, later);
    SameLineage(Run(commands), Run(commands + later), id, steps);
  }

  /** A fork's line is its parent's line, one step further; it inherits the agent it is not given. */
  lemma ForkExtendsLineage(commands: seq<Command>, c: Command, steps: nat)
    requires c.Fork? && Complaint(Run(commands), c).None?
    ensures var store, store' := Run(commands), Run(commands + [c]);
            var parent := Resolve(store, c.selector).value;
            && parent in store && c.id !in store && c.id in store'
            && store'[c.id] == ContextRecord(c.id, if c.agent.Some? then c.agent else store[parent].agent, c.name,
                                             Some(parent), Open, c.summary, None)
            && store' == store[c.id := store'[c.id]]
            && (Climbs(store', c.id, steps + 1) <==> Climbs(store, parent, steps))
            && (Climbs(store, parent, steps) ==> Ancestor(store', c.id, steps + 1) == Ancestor(store, parent, steps))
  {
    var store := Run(commands);
    assert (commands + [c])[..|commands|] == commands;
    RunsKeepInv(commands);
    ResolveFinds(store, c.selector);
    var parent := Resolve(store, c.selector).value;
    assert store[parent].id == parent;
    SameLineage(store, After(store, c), parent, steps);
  }

  // ----- Selection -----

  /** No command on any run reports an ambiguous name. */
  lemma NeverAmbiguous(commands: seq<Command>, selector: string)
    ensures Resolve(Run(commands), selector) != Err(AmbiguousName)
  {
    var store := Run(commands);
    RunsKeepInv(commands);
    if selector !in store && Named(store, selector) != {} {
      var id :| id in Named(store, selector);
      forall other | other in Named(store, selector) ensures other == id { }
      assert Named(store, selector) == {id};
    }
  }

  /** A name selects its context exactly when it is not also some context's id. */
  lemma NameSelectsExactly(commands: seq<Command>, id: string)
    requires id in Run(commands) && Run(commands)[id].name.Some?
    ensures var store := Run(commands);
            var name := store[id].name.value;
            Resolve(store, name) == Ok(id) <==> name !in store || name == id
  {
    var store := Run(commands);
    var name := store[id].name.value;
    RunsKeepInv(commands);
    NeverAmbiguous(commands, name);
    ResolveFinds(store, name);
    assert id in Named(store, name);
  }

  /** A name shadowed by an id cannot be used: the selector finds the other context. */
  lemma ShadowedName() returns (commands: seq<Command>)
    ensures var store := Run(commands);
            "b" in store && store["b"].name == Some("a") && Resolve(store, "a") == Ok("a")
  {
    var first := Create("a", None, None, None, true);
    var second := Create("b", Some("a"), None, None, true);
    commands := [first, second];
    assert [first][..0] == [] && commands[..1] == [first];
    assert Run([first]) == map["a" := Created(first)];
    assert "a"[0] != "b"[0];
    assert Named(Run([first]), "a") == {};
  }

  /** When each command succeeds. */
  lemma CommandsSucceedExactly(store: Store, c: Command)
    ensures c.Create? ==>
              (Complaint(store, c).None? <==>
                 c.id !in store && c.inputOk && (c.name.Some? ==> forall id :: id in store ==> store[id].name != c.name))
    ensures c.Fork? ==>
              (Complaint(store, c).None? <==>
                 Resolve(store, c.selector).Ok? && c.id !in store && c.inputOk
                 && (c.name.Some? ==> forall id :: id in store ==> store[id].name != c.name))
    ensures c.Close? ==> (Complaint(store, c).None? <==> Resolve(store, c.selector).Ok? && c.inputOk)
    ensures Complaint(store, c).Some? ==> After(store, c) == store
  {
    if (c.Create? || c.Fork?) && c.name.Some? {
      assert forall id :: id in store && store[id].name == c.name <==> id in Named(store, c.name.value);
    }
  }

  /** What a successful command leaves: one row made or changed, with the given fields. */
  lemma CommandsLeave(store: Store, c: Command)
    requires Complaint(store, c).None?
    ensures c.Create? ==> After(store, c) == store[c.id := ContextRecord(c.id, c.agent, c.name, None, Open, c.summary, None)]
    ensures c.Ensure? ==>
              After(store, c) == if c.id in store then store
                                 else store[c.id := ContextRecord(c.id, c.agent, None, None, Open, c.summary, None)]
    ensures c.Close? ==>
              var id := Resolve(store, c.selector).value;
              && id in store
              && var row := After(store, c)[id];
                 && After(store, c) == store[id := row]
                 && row.state.Closed? && row.closedAt == (if store[id].closedAt.Some? then store[id].closedAt else Some(c.now))
                 && row.summary == (if c.summary.Some? then c.summary else store[id].summary)
                 && row == store[id].(state := row.state, closedAt := row.closedAt, summary := row.summary)
  {
    if c.Close? { ResolveFinds(store, c.selector); }
  }

  /** A closed context stays as it was closed, but for its summary. */
  predicate StaysClosed(store: Store, store': Store) {
    forall id :: id in store && store[id].state.Closed? ==>
      id in store' && store[id].closedAt.Some? && store'[id] == store[id].(summary := store'[id].summary)
  }

  lemma CommandKeepsClosed(store: Store, c: Command)
    requires Inv(store)
    ensures StaysClosed(store, After(store, c))
  {
    if c.Close? { ResolveFinds(store, c.selector); }
  }

  /** On every run, and whatever follows, a context once closed stays closed with its first closing time. */
  lemma {:induction false} ClosedForGood(commands: seq<Command>, later: seq<Command>)
    ensures StaysClosed(Run(commands), Run(commands + later))
  {
    RunsKeepInv(commands);
    if later == [] {
      assert commands + later == commands;
    } else {
      var init, last := later[..|later| - 1], later[|later| - 1];
      ClosedForGood(commands, init);
      assert (commands + later)[..|commands + later| - 1] == commands + init;
      RunsKeepInv(commands + init);
      CommandKeepsClosed(Run(commands + init), last);
    }
  }

  /** Closing again keeps the first closing time, and the parent and name. */
  lemma CloseIsStable(store: Store, c: Command, c': Command)
    requires Inv(store) && c.Close? && c'.Close? && c'.selector == c.selector
    requires Complaint(store, c).None? && Complaint(After(store, c), c').None?
    ensures Resolve(After(store, c), c.selector) == Resolve(store, c.selector)
    ensures var id := Resolve(store, c.selector).value;
            var once, twice := After(store, c), After(After(store, c), c');
            && twice.Keys == store.Keys && id in once
            && twice[id].closedAt == once[id].closedAt && once[id].closedAt.Some?
            && (store[id].closedAt.Some? ==> twice[id].closedAt == store[id].closedAt)
            && twice[id].name == store[id].name && twice[id].parent == store[id].parent
            && forall other :: other in store && other != id ==> twice[other] == store[other]
  {
    ResolveFinds(store, c.selector);
    var once := After(store, c);
    assert once.Keys == store.Keys;
    assert Named(once, c.selector) == Named(store, c.selector);
    ResolveFinds(once, c.selector);
    if c.selector !in store {
      var id := Resolve(store, c.selector).value;
      OneNamed(store, c.selector, id);
      OneNamed(once, c.selector, Resolve(once, c.selector).value);
    }
  }
}

/** Choosing an A2A interface from an Agent Card. */
module Negotiation {
  import opened Common
  import opened Bindings
  import opened Text

  /** How binding names are compared and checked; `MISSIVE` is the program's own. */
  datatype Naming = Naming(canonical: string -> string, wellFormed: string -> bool, supported: string -> bool)

  const MISSIVE := Naming(CanonicalBinding, WellFormedBinding, IsLocallySupported)

  // ----- Preferences -----

  datatype NegotiationError =
    | EmptyBinding | InvalidBinding | NoLocalPreference | UnsupportedBinding
    | NotAdvertised | NoFallback | InvalidUrl | NoMutualInterface

  function NormalizeRequested(names: Naming, value: string): Result<string, NegotiationError> {
    var binding := names.canonical(value);
    if binding == "" then Err(EmptyBinding)
    else if !names.wellFormed(binding) then Err(InvalidBinding)
    else Ok(binding)
  }

  /** First error, or the distinct normalized values in order of first appearance. */
  function NormalizedAll(names: Naming, values: seq<string>): Result<seq<string>, NegotiationError> {
    if values == [] then Ok([])
    else
      var init, last := NormalizedAll(names, values[..|values| - 1]), NormalizeRequested(names, values[|values| - 1]);
      if init.Err? then init
      else if last.Err? then Err(last.error)
      else if last.value in init.value then init
      else Ok(init.value + [last.value])
  }

  function EffectivePreferences(preferred: seq<string>): seq<string> {
    if preferred == [] then LOCALLY_SUPPORTED_BINDINGS else preferred
  }

  method NormalizedPreferences(names: Naming, preferred: seq<string>) returns (r: Result<seq<string>, NegotiationError>)
    ensures r == NormalizedAll(names, EffectivePreferences(preferred))
  {
    var values := EffectivePreferences(preferred);
    var seen: set<string> := {};
    var normalized: seq<string> := [];
    for i := 0 to |values|
      invariant NormalizedAll(names, values[..i]) == Ok(normalized)
      invariant forall b :: b in seen <==> b in normalized
    {
      assert values[..i + 1][..i] == values[..i];
      var binding := NormalizeRequested(names, values[i]);
      if binding.Err? {
        NormalizedStops(names, values, i + 1);
        return Err(binding.error);
      }
      if binding.value !in seen {
        seen := seen + {binding.value};
        normalized := normalized + [binding.value];
      }
    }
    assert values[..|values|] == values;
    return Ok(normalized);
  }

  lemma {:induction false} NormalizedStops(names: Naming, values: seq<string>, n: nat)
    requires n <= |values| && NormalizedAll(names, values[..n]).Err?
    ensures NormalizedAll(names, values) == NormalizedAll(names, values[..n])
    decreases |values| - n
  {
    if n < |values| {
      assert values[..n + 1][..n] == values[..n];
      NormalizedStops(names, values, n + 1);
    } else {
      assert values[..n] == values;
    }
  }

  /** What normalization keeps: every requested binding, once, earlier requests first. */
  lemma {:induction false} NormalizedMeaning(names: Naming, values: seq<string>)
    ensures var r := NormalizedAll(names, values);
            && (r.Ok? <==> forall v :: v in values ==> NormalizeRequested(names, v).Ok?)
            && (r.Ok? ==> && (forall i, j :: 0 <= i < j < |r.value| ==> r.value[i] != r.value[j])
                          && (forall v :: v in values ==> names.canonical(v) in r.value)
                          && (forall b :: b in r.value ==> exists v :: v in values && names.canonical(v) == b))
  {
    if values != [] {
      SplitLast(values);
      NormalizedMeaning(names, values[..|values| - 1]);
    }
  }

  /** Earlier requests come first, and the first bad request gives the error. */
  lemma {:induction false} NormalizedOrder(names: Naming, values: seq<string>)
    ensures var r := NormalizedAll(names, values);
            && (r.Ok? ==> forall i, j :: 0 <= i < j < |r.value| ==> RequestedBefore(names, values, r.value[i], r.value[j]))
            && (r.Err? ==> exists k :: FailsFirst(names, values, k, r.error))
  {
    if values != [] {
      var init, last := values[..|values| - 1], values[|values| - 1];
      NormalizedOrder(names, init);
      NormalizedMeaning(names, init);
      SplitLast(values);
      var before, r := NormalizedAll(names, init), NormalizedAll(names, values);
      if r.Ok? {
        assert r.value == before.value || r.value == before.value + [names.canonical(last)];
        forall i, j | 0 <= i < j < |r.value| ensures RequestedBefore(names, values, r.value[i], r.value[j]) {
          if j < |before.value| { StillBefore(names, init, last, r.value[i], r.value[j]); }
          else { NewComesLast(names, init, last, r.value[i]); }
        }
      } else if before.Err? {
        var k :| FailsFirst(names, init, k, before.error);
        FailsStill(names, init, last, k, r.error);
      } else {
        LastFails(names, init, last, r.error);
      }
    }
  }

  lemma FailsStill(names: Naming, init: seq<string>, last: string, k: nat, error: NegotiationError)
    requires FailsFirst(names, init, k, error)
    ensures FailsFirst(names, init + [last], k, error)
  {
    assert forall l :: 0 <= l <= k ==> (init + [last])[l] == init[l];
  }

  lemma LastFails(names: Naming, init: seq<string>, last: string, error: NegotiationError)
    requires NormalizedAll(names, init).Ok? && NormalizeRequested(names, last) == Err(error)
    ensures FailsFirst(names, init + [last], |init|, error)
  {
    NormalizedMeaning(names, init);
    forall l | 0 <= l < |init| ensures NormalizeRequested(names, (init + [last])[l]).Ok? { assert init[l] in init; }
  }

  predicate FailsFirst(names: Naming, values: seq<string>, k: nat, error: NegotiationError) {
    k < |values| && NormalizeRequested(names, values[k]) == Err(error)
    && forall l :: 0 <= l < k ==> NormalizeRequested(names, values[l]).Ok?
  }

  /** `first` is requested at a place before any request of `second`. */
  ghost predicate RequestedBefore(names: Naming, values: seq<string>, first: string, second: string) {
    exists k :: 0 <= k < |values| && names.canonical(values[k]) == first
                && forall l :: 0 <= l <= k ==> names.canonical(values[l]) != second
  }

  lemma StillBefore(names: Naming, init: seq<string>, last: string, first: string, second: string)
    requires RequestedBefore(names, init, first, second)
    ensures RequestedBefore(names, init + [last], first, second)
  {
    var k :| 0 <= k < |init| && names.canonical(init[k]) == first && forall l :: 0 <= l <= k ==> names.canonical(init[l]) != second;
    assert forall l :: 0 <= l <= k ==> (init + [last])[l] == init[l];
  }

  lemma NewComesLast(names: Naming, init: seq<string>, last: string, first: string)
    requires NormalizedAll(names, init).Ok? && first in NormalizedAll(names, init).value
    requires names.canonical(last) !in NormalizedAll(names, init).value
    ensures RequestedBefore(names, init + [last], first, names.canonical(last))
  {
    NormalizedMeaning(names, init);
    var v :| v in init && names.canonical(v) == first;
    var k :| 0 <= k < |init| && init[k] == v;
    forall l | 0 <= l <= k ensures names.canonical((init + [last])[l]) != names.canonical(last) {
      assert init[l] in init;
    }
    assert (init + [last])[k] == init[k];
  }

  // ----- Choosing -----

  datatype CardInterface = CardInterface(protocolBinding: string, url: string, tenant: Option<string>, version: string)

  datatype Source = AgentCard | RegistryOverride | BaseUrlFallback

  datatype Selected = Selected(
    binding: string, protocolBinding: string, url: string, tenant: Option<string>, version: string, source: Source)

  /** Registered interface URLs, in key order, and the agent's base URL. */
  datatype Fallbacks = Fallbacks(interfaceUrls: seq<(string, string)>, baseUrl: Option<string>)

  /** URL syntax checking is outside the model and given as a predicate. */
  datatype Options = Options(preferred: seq<string>, bindingOverride: Option<string>, fallbacks: Fallbacks)

  function FirstCardInterface(names: Naming, card: seq<CardInterface>, binding: string): (r: Option<nat>)
    ensures r.Some? ==> r.value < |card| && names.canonical(card[r.value].protocolBinding) == binding
    ensures forall j :: 0 <= j < (if r.Some? then r.value else |card|) ==> names.canonical(card[j].protocolBinding) != binding
  {
    if card == [] then None
    else if names.canonical(card[0].protocolBinding) == binding then Some(0)
    else
      var rest := FirstCardInterface(names, card[1..], binding);
      if rest.Some? then Some(rest.value + 1) else None
  }

  function FromCard(names: Naming, card: CardInterface): Selected {
    Selected(names.canonical(card.protocolBinding), card.protocolBinding, card.url, card.tenant, card.version, AgentCard)
  }

  function FirstFallbackUrl(names: Naming, urls: seq<(string, string)>, binding: string): Option<string> {
    if urls == [] then None
    else if names.canonical(urls[0].0) == binding then Some(urls[0].1)
    else FirstFallbackUrl(names, urls[1..], binding)
  }

  /** The fallback for one binding: a registered URL, else the base URL for HTTP+JSON. */
  function FallbackFor(names: Naming, fallbacks: Fallbacks, binding: string): Option<Selected> {
    var registered := FirstFallbackUrl(names, fallbacks.interfaceUrls, binding);
    if registered.Some? then Some(Selected(binding, binding, registered.value, None, "unknown", RegistryOverride))
    else if binding == HTTP_JSON_BINDING && fallbacks.baseUrl.Some? then
      Some(Selected(binding, binding, fallbacks.baseUrl.value, None, "unknown", BaseUrlFallback))
    else None
  }

  ghost predicate FirstFallback(names: Naming, fallbacks: Fallbacks, bindings: seq<string>, rank: nat) {
    && rank < |bindings| && FallbackFor(names, fallbacks, bindings[rank]).Some?
    && forall k :: 0 <= k < rank ==> FallbackFor(names, fallbacks, bindings[k]).None?
  }

  /** The earliest binding with a fallback decides, even when its URL is malformed. */
  ghost predicate FallbackOutcome(names: Naming, fallbacks: Fallbacks, bindings: seq<string>, validUrl: string -> bool, r: Result<Selected, NegotiationError>) {
    if exists rank: nat :: FirstFallback(names, fallbacks, bindings, rank) then
      exists rank: nat :: FirstFallback(names, fallbacks, bindings, rank)
                          && var choice := FallbackFor(names, fallbacks, bindings[rank]).value;
                             r == if validUrl(choice.url) then Ok(choice) else Err(InvalidUrl)
    else r == Err(NoFallback)
  }

  method MissingInterfacesFallback(names: Naming, fallbacks: Fallbacks, bindings: seq<string>, validUrl: string -> bool)
    returns (r: Result<Selected, NegotiationError>)
    ensures FallbackOutcome(names, fallbacks, bindings, validUrl, r)
  {
    for i := 0 to |bindings|
      invariant forall k :: 0 <= k < i ==> FallbackFor(names, fallbacks, bindings[k]).None?
    {
      var fallback := FallbackFor(names, fallbacks, bindings[i]);
      if fallback.Some? {
        assert FirstFallback(names, fallbacks, bindings, i);
        return if validUrl(fallback.value.url) then Ok(fallback.value) else Err(InvalidUrl);
      }
    }
    return Err(NoFallback);
  }

  /** A usable pair: rank in the preferences and position in the card. */
  predicate Usable(names: Naming, card: seq<CardInterface>, bindings: seq<string>, rank: nat, position: nat) {
    rank < |bindings| && position < |card| && names.canonical(card[position].protocolBinding) == bindings[rank]
  }

  /** The card interface at `position` is lexicographically least by (rank, position). */
  ghost predicate Best(names: Naming, card: seq<CardInterface>, bindings: seq<string>, rank: nat, position: nat) {
    && Usable(names, card, bindings, rank, position)
    && forall r: nat, p: nat :: Usable(names, card, bindings, r, p) ==> rank < r || (rank == r && position <= p)
  }

  ghost predicate SomeUsable(names: Naming, card: seq<CardInterface>, bindings: seq<string>) {
    exists r: nat, p: nat :: Usable(names, card, bindings, r, p)
  }

  lemma BestIsUnique(names: Naming, card: seq<CardInterface>, bindings: seq<string>, r: nat, p: nat, r': nat, p': nat)
    requires Best(names, card, bindings, r, p) && Best(names, card, bindings, r', p')
    ensures r == r' && p == p'
  {
    assert Usable(names, card, bindings, r, p) && Usable(names, card, bindings, r', p');
  }

  method ChooseFromCard(names: Naming, card: seq<CardInterface>, bindings: seq<string>) returns (r: Option<(nat, nat)>)
    ensures r.Some? ==> Best(names, card, bindings, r.value.0, r.value.1)
    ensures r.None? ==> !SomeUsable(names, card, bindings)
  {
    for i := 0 to |bindings|
      invariant forall k: nat, p: nat :: k < i ==> !Usable(names, card, bindings, k, p)
    {
      var position := FirstCardInterface(names, card, bindings[i]);
      if position.Some? {
        assert Usable(names, card, bindings, i, position.value);
        return Some((i, position.value));
      }
    }
    return None;
  }

  /** The whole negotiation. */
  method Negotiate(names: Naming, card: seq<CardInterface>, options: Options, validUrl: string -> bool)
    returns (r: Result<Selected, NegotiationError>)
    ensures Outcome(names, card, options, validUrl, r)
  {
    var preferences := NormalizedPreferences(names, options.preferred);
    if preferences.Err? { return Err(preferences.error); }
    var bindings: seq<string>;
    if options.bindingOverride.Some? {
      var binding := NormalizeRequested(names, options.bindingOverride.value);
      if binding.Err? { return Err(binding.error); }
      if !names.supported(binding.value) { return Err(UnsupportedBinding); }
      bindings := [binding.value];
    } else {
      bindings := [];
      for i := 0 to |preferences.value|
        invariant bindings == Filter(preferences.value[..i], names.supported)
      {
        assert preferences.value[..i + 1] == preferences.value[..i] + [preferences.value[i]];
        FilterSnoc(preferences.value[..i], preferences.value[i], names.supported);
        if names.supported(preferences.value[i]) {
          bindings := bindings + [preferences.value[i]];
        }
      }
      assert preferences.value[..|preferences.value|] == preferences.value;
      if bindings == [] { return Err(NoLocalPreference); }
    }
    assert Candidates(names, options) == Ok(bindings);
    var choice := ChooseFromCard(names, card, bindings);
    if choice.Some? { return Ok(FromCard(names, card[choice.value.1])); }
    if card == [] {
      r := MissingInterfacesFallback(names, options.fallbacks, bindings, validUrl);
      return;
    }
    return Err(if options.bindingOverride.Some? then NotAdvertised else NoMutualInterface);
  }

  /** The bindings tried, best first: the override alone, or the locally supported preferences. */
  function Candidates(names: Naming, options: Options): (r: Result<seq<string>, NegotiationError>)
    ensures r.Ok? ==> r.value != [] && forall b :: b in r.value ==> names.supported(b)
  {
    var preferences := NormalizedAll(names, EffectivePreferences(options.preferred));
    if preferences.Err? then Err(preferences.error)
    else if options.bindingOverride.Some? then
      var binding := NormalizeRequested(names, options.bindingOverride.value);
      if binding.Err? then Err(binding.error)
      else if !names.supported(binding.value) then Err(UnsupportedBinding)
      else Ok([binding.value])
    else
      var bindings := Filter(preferences.value, names.supported);
      FilterMembers(preferences.value, names.supported);
      if bindings == [] then Err(NoLocalPreference) else Ok(bindings)
  }

  /** What a negotiation may answer; by `OutcomeIsUnique` this determines it. */
  ghost predicate Outcome(names: Naming, card: seq<CardInterface>, options: Options, validUrl: string -> bool, r: Result<Selected, NegotiationError>) {
    var candidates := Candidates(names, options);
    if candidates.Err? then r == Err(candidates.error)
    else if SomeUsable(names, card, candidates.value) then
      exists rank: nat, position: nat :: Best(names, card, candidates.value, rank, position) && r == Ok(FromCard(names, card[position]))
    else if card != [] then r == Err(if options.bindingOverride.Some? then NotAdvertised else NoMutualInterface)
    else FallbackOutcome(names, options.fallbacks, candidates.value, validUrl, r)
  }

  lemma OutcomeIsUnique(names: Naming, card: seq<CardInterface>, options: Options, validUrl: string -> bool,
                        r: Result<Selected, NegotiationError>, r': Result<Selected, NegotiationError>)
    requires Outcome(names, card, options, validUrl, r) && Outcome(names, card, options, validUrl, r')
    ensures r == r'
  {
    var candidates := Candidates(names, options);
    if candidates.Ok? && SomeUsable(names, card, candidates.value) {
      var k: nat, p: nat :| Best(names, card, candidates.value, k, p) && r == Ok(FromCard(names, card[p]));
      var k': nat, p': nat :| Best(names, card, candidates.value, k', p') && r' == Ok(FromCard(names, card[p']));
      BestIsUnique(names, card, candidates.value, k, p, k', p');
    }
  }

  /** Whatever is chosen is locally supported; a card interface is chosen exactly when one is usable. */
  lemma ChoiceIsSupportedAndComplete(names: Naming, card: seq<CardInterface>, options: Options, validUrl: string -> bool, r: Result<Selected, NegotiationError>)
    requires Outcome(names, card, options, validUrl, r)
    ensures r.Ok? ==> names.supported(r.value.binding)
    ensures r.Ok? && r.value.source == AgentCard <==> Candidates(names, options).Ok? && SomeUsable(names, card, Candidates(names, options).value)
    ensures r.Ok? && r.value.source != AgentCard ==> card == [] && validUrl(r.value.url)
  {
  }

  /** A card interface is passed on as the card gives it, under its canonical binding. */
  lemma CardChoiceIsAdvertised(names: Naming, card: seq<CardInterface>, options: Options, validUrl: string -> bool, r: Result<Selected, NegotiationError>)
    requires Outcome(names, card, options, validUrl, r) && r.Ok? && r.value.source == AgentCard
    ensures exists rank: nat, position: nat ::
              && Best(names, card, Candidates(names, options).value, rank, position)
              && r.value.url == card[position].url && r.value.tenant == card[position].tenant
              && r.value.version == card[position].version && r.value.protocolBinding == card[position].protocolBinding
              && r.value.binding == names.canonical(card[position].protocolBinding)
  {
    var candidates := Candidates(names, options).value;
    var rank: nat, position: nat :| Best(names, card, candidates, rank, position) && r == Ok(FromCard(names, card[position]));
  }

  /** A fallback exists exactly when a URL is registered under some spelling of the binding, or the binding is
      HTTP+JSON and there is a base URL. The registered URL comes first, in key order. */
  lemma FallbackExactly(names: Naming, fallbacks: Fallbacks, binding: string)
    ensures var urls, r := fallbacks.interfaceUrls, FallbackFor(names, fallbacks, binding);
            var registered := exists i :: 0 <= i < |urls| && names.canonical(urls[i].0) == binding;
            && (r.Some? <==> registered || (binding == HTTP_JSON_BINDING && fallbacks.baseUrl.Some?))
            && (r.Some? ==> r.value.binding == r.value.protocolBinding == binding && r.value.tenant.None? && r.value.version == "unknown")
            && (registered ==> r.value.source == RegistryOverride
                               && exists i :: 0 <= i < |urls| && names.canonical(urls[i].0) == binding && r.value.url == urls[i].1
                                              && forall j :: 0 <= j < i ==> names.canonical(urls[j].0) != binding)
            && (r.Some? && !registered ==> r.value.source == BaseUrlFallback && Some(r.value.url) == fallbacks.baseUrl)
  {
    FirstFallbackAt(names, fallbacks.interfaceUrls, binding);
  }

  lemma {:induction false} FirstFallbackAt(names: Naming, urls: seq<(string, string)>, binding: string)
    ensures var found := FirstFallbackUrl(names, urls, binding);
            if found.None? then forall i :: 0 <= i < |urls| ==> names.canonical(urls[i].0) != binding
            else exists i :: 0 <= i < |urls| && names.canonical(urls[i].0) == binding && found.value == urls[i].1
                             && forall j :: 0 <= j < i ==> names.canonical(urls[j].0) != binding
  {
    if urls != [] && names.canonical(urls[0].0) != binding {
      FirstFallbackAt(names, urls[1..], binding);
      var rest := urls[1..];
      if i :| 0 <= i < |rest| && names.canonical(rest[i].0) == binding && FirstFallbackUrl(names, urls, binding) == Some(rest[i].1)
              && forall j :: 0 <= j < i ==> names.canonical(rest[j].0) != binding
      {
        assert urls[i + 1] == rest[i];
        assert forall j :: 0 < j < i + 1 ==> urls[j] == rest[j - 1];
      }
    }
  }

  /** A requested binding is refused exactly when it is empty or has a character no binding has. */
  lemma RequestedExactly(names: Naming, value: string)
    ensures var r, binding := NormalizeRequested(names, value), names.canonical(value);
            && (r == Ok(binding) <==> binding != "" && names.wellFormed(binding))
            && (r == Err(EmptyBinding) <==> binding == "")
            && (r == Err(InvalidBinding) <==> binding != "" && !names.wellFormed(binding))
  {
  }

  /** Which error is reported when, and what an empty card gives. */
  lemma RefusalsExactly(names: Naming, card: seq<CardInterface>, options: Options, validUrl: string -> bool, r: Result<Selected, NegotiationError>)
    requires Outcome(names, card, options, validUrl, r)
    ensures var preferences := NormalizedAll(names, if options.preferred == [] then LOCALLY_SUPPORTED_BINDINGS else options.preferred);
            var wanted := options.bindingOverride;
            && (preferences.Err? ==> r == Err(preferences.error))
            && (preferences.Ok? && wanted.Some? ==>
                  var binding := NormalizeRequested(names, wanted.value);
                  && (binding.Err? ==> r == Err(binding.error))
                  && (binding.Ok? && !names.supported(binding.value) ==> r == Err(UnsupportedBinding))
                  && (binding.Ok? && names.supported(binding.value) ==> Candidates(names, options) == Ok([binding.value])))
            && (preferences.Ok? && wanted.None? ==>
                  && (r == Err(NoLocalPreference) <==> forall b :: b in preferences.value ==> !names.supported(b))
                  && (Candidates(names, options).Ok? ==> Candidates(names, options).value == Filter(preferences.value, names.supported)))
    ensures Candidates(names, options).Ok? && card != [] && !SomeUsable(names, card, Candidates(names, options).value) ==>
              r == Err(if options.bindingOverride.Some? then NotAdvertised else NoMutualInterface)
    ensures Candidates(names, options).Ok? && card == [] ==>
              && (r == Err(NoFallback) <==>
                    forall b :: b in Candidates(names, options).value ==> FallbackFor(names, options.fallbacks, b).None?)
              && (r.Err? ==> r.error == NoFallback || r.error == InvalidUrl)
              && forall k: nat :: FirstFallback(names, options.fallbacks, Candidates(names, options).value, k) ==>
                   var choice := FallbackFor(names, options.fallbacks, Candidates(names, options).value[k]).value;
                   r == if validUrl(choice.url) then Ok(choice) else Err(InvalidUrl)
  {
    var preferences := NormalizedAll(names, EffectivePreferences(options.preferred));
    if preferences.Ok? {
      FilterMembers(preferences.value, names.supported);
      assert forall b :: b in Filter(preferences.value, names.supported) <==> b in preferences.value && names.supported(b);
      assert Filter(preferences.value, names.supported) != [] ==>
               Filter(preferences.value, names.supported)[0] in Filter(preferences.value, names.supported);
    }
    if Candidates(names, options).Ok? && card == [] {
      NoFallbackExactly(names, options.fallbacks, Candidates(names, options).value, validUrl, r);
    }
  }

  lemma NoFallbackExactly(names: Naming, fallbacks: Fallbacks, bindings: seq<string>, validUrl: string -> bool, r: Result<Selected, NegotiationError>)
    requires FallbackOutcome(names, fallbacks, bindings, validUrl, r)
    ensures r == Err(NoFallback) <==> forall b :: b in bindings ==> FallbackFor(names, fallbacks, b).None?
    ensures r.Err? ==> r.error == NoFallback || r.error == InvalidUrl
    ensures forall k: nat :: FirstFallback(names, fallbacks, bindings, k) ==>
              var choice := FallbackFor(names, fallbacks, bindings[k]).value;
              r == if validUrl(choice.url) then Ok(choice) else Err(InvalidUrl)
  {
    forall k: nat | FirstFallback(names, fallbacks, bindings, k)
      ensures var choice := FallbackFor(names, fallbacks, bindings[k]).value;
              r == if validUrl(choice.url) then Ok(choice) else Err(InvalidUrl)
    {
      OneFirstFallback(names, fallbacks, bindings, k);
    }
    if k: nat :| k < |bindings| && FallbackFor(names, fallbacks, bindings[k]).Some? {
      var first := LeastFallback(names, fallbacks, bindings, k);
      assert FirstFallback(names, fallbacks, bindings, first);
    }
  }

  lemma {:induction false} LeastFallback(names: Naming, fallbacks: Fallbacks, bindings: seq<string>, k: nat) returns (first: nat)
    requires k < |bindings| && FallbackFor(names, fallbacks, bindings[k]).Some?
    ensures FirstFallback(names, fallbacks, bindings, first)
  {
    if j: nat :| j < k && FallbackFor(names, fallbacks, bindings[j]).Some? {
      first := LeastFallback(names, fallbacks, bindings, j);
    } else {
      first := k;
    }
  }

  // ----- Spelling -----

  predicate SameSpellings(names: Naming, xs: seq<string>, ys: seq<string>) {
    |xs| == |ys| && forall i :: 0 <= i < |xs| ==> names.canonical(xs[i]) == names.canonical(ys[i])
  }

  lemma {:induction false} NormalizedIgnoresSpelling(names: Naming, xs: seq<string>, ys: seq<string>)
    requires SameSpellings(names, xs, ys)
    ensures NormalizedAll(names, xs) == NormalizedAll(names, ys)
  {
    if xs != [] { NormalizedIgnoresSpelling(names, xs[..|xs| - 1], ys[..|ys| - 1]); }
  }

  /** The card with its bindings spelled differently. */
  predicate Respelled(names: Naming, card: seq<CardInterface>, card': seq<CardInterface>) {
    |card| == |card'| && forall i :: 0 <= i < |card| ==>
      && names.canonical(card[i].protocolBinding) == names.canonical(card'[i].protocolBinding)
      && card'[i] == card[i].(protocolBinding := card'[i].protocolBinding)
  }

  // The keys of the registered URLs are kept in order of their spelling, and only equal spellings are refused
  // as duplicates; there spelling can decide.

  /** The URLs under canonical keys. */
  function CanonicalUrls(names: Naming, urls: seq<(string, string)>): seq<(string, string)> {
    Map((u: (string, string)) => (names.canonical(u.0), u.1), urls)
  }

  /** The same URLs for the same bindings, in whatever spelling and so whatever order. */
  predicate SameUrls(names: Naming, urls: seq<(string, string)>, urls': seq<(string, string)>) {
    multiset(CanonicalUrls(names, urls)) == multiset(CanonicalUrls(names, urls'))
  }

  /** Keys that spell the same binding carry the same URL. */
  predicate Unambiguous(names: Naming, urls: seq<(string, string)>) {
    forall i, j :: 0 <= i < j < |urls| && names.canonical(urls[i].0) == names.canonical(urls[j].0) ==> urls[i].1 == urls[j].1
  }

  predicate KeysInOrder(urls: seq<(string, string)>) {
    forall i, j :: 0 <= i < j < |urls| ==> LexLeq(urls[i].0, urls[j].0) && urls[i].0 != urls[j].0
  }

  predicate SameFallbacks(names: Naming, fallbacks: Fallbacks, fallbacks': Fallbacks) {
    || fallbacks' == fallbacks
    || (fallbacks'.baseUrl == fallbacks.baseUrl && SameUrls(names, fallbacks.interfaceUrls, fallbacks'.interfaceUrls)
        && Unambiguous(names, fallbacks.interfaceUrls))
  }

  /** No respelling of the keys changes the URL found for any binding. */
  ghost predicate KeySpellingIrrelevant(names: Naming, urls: seq<(string, string)>) {
    forall urls', binding :: KeysInOrder(urls') && SameUrls(names, urls, urls') ==>
      FirstFallbackUrl(names, urls', binding) == FirstFallbackUrl(names, urls, binding)
  }

  /** The spelling of the registered keys never decides exactly when no two of them spell the same binding with
      different URLs. */
  lemma KeySpellingExactly(names: Naming, urls: seq<(string, string)>)
    requires KeysInOrder(urls)
    ensures KeySpellingIrrelevant(names, urls) <==> Unambiguous(names, urls)
  {
    if Unambiguous(names, urls) {
      forall urls', binding | SameUrls(names, urls, urls')
        ensures FirstFallbackUrl(names, urls', binding) == FirstFallbackUrl(names, urls, binding)
      {
        SameUrlFound(names, urls, urls', binding);
      }
    } else {
      var i, j :| 0 <= i < j < |urls| && names.canonical(urls[i].0) == names.canonical(urls[j].0) && urls[i].1 != urls[j].1;
      var binding := names.canonical(urls[i].0);
      var first := FirstKey(names, urls, binding, i);
      var urls' := Swapped(names, urls, first, if urls[first].1 != urls[i].1 then i else j);
      FoundAt(names, urls, binding, first);
      FoundAt(names, urls', binding, first);
    }
  }

  lemma {:induction false} UrlFound(names: Naming, urls: seq<(string, string)>, binding: string)
    ensures var found := FirstFallbackUrl(names, urls, binding);
            && (found.Some? ==> (binding, found.value) in CanonicalUrls(names, urls))
            && (found.None? ==> forall url :: (binding, url) !in CanonicalUrls(names, urls))
  {
    if urls != [] {
      UrlFound(names, urls[1..], binding);
      assert CanonicalUrls(names, urls) == [(names.canonical(urls[0].0), urls[0].1)] + CanonicalUrls(names, urls[1..]);
    }
  }

  lemma SameUrlFound(names: Naming, urls: seq<(string, string)>, urls': seq<(string, string)>, binding: string)
    requires SameUrls(names, urls, urls') && Unambiguous(names, urls)
    ensures FirstFallbackUrl(names, urls', binding) == FirstFallbackUrl(names, urls, binding)
  {
    UrlFound(names, urls, binding);
    UrlFound(names, urls', binding);
    var canonical, canonical' := CanonicalUrls(names, urls), CanonicalUrls(names, urls');
    assert forall entry :: entry in canonical <==> entry in multiset(canonical);
    assert forall entry :: entry in canonical' <==> entry in multiset(canonical');
    var found, found' := FirstFallbackUrl(names, urls, binding), FirstFallbackUrl(names, urls', binding);
    if found.Some? && found'.Some? {
      var i :| 0 <= i < |urls| && canonical[i] == (binding, found.value);
      var j :| 0 <= j < |urls| && canonical[j] == (binding, found'.value);
    }
  }

  lemma {:induction false} FirstKey(names: Naming, urls: seq<(string, string)>, binding: string, i: nat) returns (first: nat)
    requires i < |urls| && names.canonical(urls[i].0) == binding
    ensures first <= i && names.canonical(urls[first].0) == binding
    ensures forall k :: 0 <= k < first ==> names.canonical(urls[k].0) != binding
  {
    if k: nat :| k < i && names.canonical(urls[k].0) == binding {
      first := FirstKey(names, urls, binding, k);
    } else {
      first := i;
    }
  }

  lemma {:induction false} FoundAt(names: Naming, urls: seq<(string, string)>, binding: string, first: nat)
    requires first < |urls| && names.canonical(urls[first].0) == binding
    requires forall k :: 0 <= k < first ==> names.canonical(urls[k].0) != binding
    ensures FirstFallbackUrl(names, urls, binding) == Some(urls[first].1)
  {
    if first > 0 { FoundAt(names, urls[1..], binding, first - 1); }
  }

  /** Two keys of one binding exchange their URLs. */
  lemma Swapped(names: Naming, urls: seq<(string, string)>, i: nat, j: nat) returns (urls': seq<(string, string)>)
    requires KeysInOrder(urls) && i < |urls| && j < |urls| && names.canonical(urls[i].0) == names.canonical(urls[j].0)
    ensures |urls'| == |urls| && forall k :: 0 <= k < |urls| ==> urls'[k].0 == urls[k].0
    ensures urls'[i].1 == urls[j].1 && KeysInOrder(urls') && SameUrls(names, urls, urls')
  {
    urls' := urls[i := (urls[i].0, urls[j].1)][j := (urls[j].0, urls[i].1)];
    var canonical := CanonicalUrls(names, urls);
    assert CanonicalUrls(names, urls') == canonical[i := canonical[j]][j := canonical[i]];
  }

  /** With an empty card and default preferences, two spellings of one binding with different URLs: swapping the
      URLs, and with them the spellings, changes the choice. */
  lemma KeySpellingDecides(r: Result<Selected, NegotiationError>, r': Result<Selected, NegotiationError>)
    requires Outcome(MISSIVE, [], Options([], None, Fallbacks([("http+json", "A"), ("httpjson", "B")], None)), url => true, r)
    requires Outcome(MISSIVE, [], Options([], None, Fallbacks([("http+json", "B"), ("httpjson", "A")], None)), url => true, r')
    ensures r.Ok? && r'.Ok? && r.value.url == "A" && r'.value.url == "B"
  {
    HttpJsonSpellings();
    var first, second := Fallbacks([("http+json", "A"), ("httpjson", "B")], None), Fallbacks([("http+json", "B"), ("httpjson", "A")], None);
    DefaultCandidates(first);
    DefaultCandidates(second);
    FoundAt(MISSIVE, first.interfaceUrls, HTTP_JSON_BINDING, 0);
    FoundAt(MISSIVE, second.interfaceUrls, HTTP_JSON_BINDING, 0);
    FallbackChosen(MISSIVE, Options([], None, first), HTTP_JSON_BINDING, r);
    FallbackChosen(MISSIVE, Options([], None, second), HTTP_JSON_BINDING, r');
  }

  lemma DefaultCandidates(fallbacks: Fallbacks)
    ensures Candidates(MISSIVE, Options([], None, fallbacks)) == Ok([HTTP_JSON_BINDING, JSON_RPC_BINDING])
  {
    SupportedAreFixed();
    assert HTTP_JSON_BINDING[0] != JSON_RPC_BINDING[0];
    assert EffectivePreferences([]) == [HTTP_JSON_BINDING, JSON_RPC_BINDING];
    TwoPreferences(MISSIVE, Options([], None, fallbacks), HTTP_JSON_BINDING, JSON_RPC_BINDING);
  }

  lemma SupportedAreFixed()
    ensures NormalizeRequested(MISSIVE, HTTP_JSON_BINDING) == Ok(HTTP_JSON_BINDING)
    ensures NormalizeRequested(MISSIVE, JSON_RPC_BINDING) == Ok(JSON_RPC_BINDING)
  {
    HttpJsonSpellings();
    JsonRpcIsCanonical();
    SupportedAreWellFormed();
    NormalizedFixed(HTTP_JSON_BINDING);
    NormalizedFixed(JSON_RPC_BINDING);
  }

  lemma NormalizedFixed(value: string)
    requires value != "" && CanonicalBinding(value) == value && WellFormedBinding(value)
    ensures NormalizeRequested(MISSIVE, value) == Ok(value)
  {
  }

  lemma TwoPreferences(names: Naming, options: Options, a: string, b: string)
    requires EffectivePreferences(options.preferred) == [a, b] && options.bindingOverride.None?
    requires NormalizeRequested(names, a) == Ok(a) && NormalizeRequested(names, b) == Ok(b) && a != b
    requires names.supported(a) && names.supported(b)
    ensures Candidates(names, options) == Ok([a, b])
  {
    NormalizedPair(names, a, b);
    SupportedPair(names.supported, a, b);
    CandidatesAll(names, options, [a, b]);
  }

  lemma CandidatesAll(names: Naming, options: Options, bindings: seq<string>)
    requires EffectivePreferences(options.preferred) == bindings && options.bindingOverride.None? && bindings != []
    requires NormalizedAll(names, bindings) == Ok(bindings) && Filter(bindings, names.supported) == bindings
    ensures Candidates(names, options) == Ok(bindings)
  {
  }

  lemma SupportedPair(supported: string -> bool, a: string, b: string)
    requires supported(a) && supported(b)
    ensures Filter([a, b], supported) == [a, b]
  {
    FilterSnoc([], a, supported);
    assert [] + [a] == [a] && [a] + [b] == [a, b];
    FilterSnoc([a], b, supported);
  }

  lemma NormalizedPair(names: Naming, a: string, b: string)
    requires NormalizeRequested(names, a) == Ok(a) && NormalizeRequested(names, b) == Ok(b) && a != b
    ensures NormalizedAll(names, [a, b]) == Ok([a, b])
  {
    NormalizedSnoc(names, [], [], a);
    assert [] + [a] == [a] && [a] + [b] == [a, b];
    NormalizedSnoc(names, [a], [a], b);
  }

  lemma NormalizedSnoc(names: Naming, values: seq<string>, normalized: seq<string>, value: string)
    requires NormalizedAll(names, values) == Ok(normalized)
    requires NormalizeRequested(names, value) == Ok(value) && value !in normalized
    ensures NormalizedAll(names, values + [value]) == Ok(normalized + [value])
  {
    assert (values + [value])[..|values|] == values;
  }

  /** With an empty card, a registered URL for the first binding tried is chosen. */
  lemma FallbackChosen(names: Naming, options: Options, binding: string, r: Result<Selected, NegotiationError>)
    requires Candidates(names, options).Ok? && Candidates(names, options).value[0] == binding
    requires FirstFallbackUrl(names, options.fallbacks.interfaceUrls, binding).Some?
    requires Outcome(names, [], options, url => true, r)
    ensures r.Ok? && r.value.url == FirstFallbackUrl(names, options.fallbacks.interfaceUrls, binding).value
  {
    assert FirstFallback(names, options.fallbacks, Candidates(names, options).value, 0);
  }

  /** Respelling bindings in the card, the preferences or the override changes nothing but the quoted spelling, and
      so does respelling the registered keys unless they are ambiguous. */
  lemma SpellingDoesNotMatter(names: Naming, card: seq<CardInterface>, card': seq<CardInterface>, options: Options, options': Options,
                              validUrl: string -> bool, r: Result<Selected, NegotiationError>, r': Result<Selected, NegotiationError>)
    requires Respelled(names, card, card') && SameSpellings(names, options.preferred, options'.preferred)
    requires options'.bindingOverride.Some? <==> options.bindingOverride.Some?
    requires options.bindingOverride.Some? ==>
               names.canonical(options.bindingOverride.value) == names.canonical(options'.bindingOverride.value)
    requires SameFallbacks(names, options.fallbacks, options'.fallbacks)
    requires Outcome(names, card, options, validUrl, r) && Outcome(names, card', options', validUrl, r')
    ensures r.Ok? <==> r'.Ok?
    ensures r.Err? ==> r == r'
    ensures r.Ok? ==> r'.value == r.value.(protocolBinding := r'.value.protocolBinding)
  {
    NormalizedIgnoresSpelling(names, EffectivePreferences(options.preferred), EffectivePreferences(options'.preferred));
    assert Candidates(names, options) == Candidates(names, options');
    var candidates := Candidates(names, options);
    if candidates.Ok? {
      UsableIgnoresSpelling(names, card, card', candidates.value);
      if SomeUsable(names, card, candidates.value) {
        ChoiceIgnoresSpelling(names, card, card', candidates.value, r, r');
      } else if card == [] {
        FallbacksIgnoreSpelling(names, options.fallbacks, options'.fallbacks, candidates.value, validUrl, r, r');
      }
    }
  }

  lemma FallbacksIgnoreSpelling(names: Naming, fallbacks: Fallbacks, fallbacks': Fallbacks, bindings: seq<string>,
                                validUrl: string -> bool, r: Result<Selected, NegotiationError>, r': Result<Selected, NegotiationError>)
    requires SameFallbacks(names, fallbacks, fallbacks')
    requires FallbackOutcome(names, fallbacks, bindings, validUrl, r) && FallbackOutcome(names, fallbacks', bindings, validUrl, r')
    ensures r == r'
  {
    forall binding ensures FallbackFor(names, fallbacks', binding) == FallbackFor(names, fallbacks, binding) {
      SameFallbackFor(names, fallbacks, fallbacks', binding);
    }
    assert forall rank: nat :: FirstFallback(names, fallbacks', bindings, rank) <==> FirstFallback(names, fallbacks, bindings, rank);
    if rank: nat :| FirstFallback(names, fallbacks, bindings, rank) {
      OneFirstFallback(names, fallbacks, bindings, rank);
      assert FirstFallback(names, fallbacks', bindings, rank);
    }
  }

  lemma SameFallbackFor(names: Naming, fallbacks: Fallbacks, fallbacks': Fallbacks, binding: string)
    requires SameFallbacks(names, fallbacks, fallbacks')
    ensures FallbackFor(names, fallbacks', binding) == FallbackFor(names, fallbacks, binding)
  {
    if fallbacks' != fallbacks { SameUrlFound(names, fallbacks.interfaceUrls, fallbacks'.interfaceUrls, binding); }
  }

  lemma OneFirstFallback(names: Naming, fallbacks: Fallbacks, bindings: seq<string>, rank: nat)
    requires FirstFallback(names, fallbacks, bindings, rank)
    ensures forall other: nat :: FirstFallback(names, fallbacks, bindings, other) ==> other == rank
  {
  }

  lemma UsableIgnoresSpelling(names: Naming, card: seq<CardInterface>, card': seq<CardInterface>, bindings: seq<string>)
    requires Respelled(names, card, card')
    ensures forall k: nat, p: nat :: Usable(names, card, bindings, k, p) <==> Usable(names, card', bindings, k, p)
    ensures SomeUsable(names, card, bindings) <==> SomeUsable(names, card', bindings)
  {
  }

  lemma ChoiceIgnoresSpelling(names: Naming, card: seq<CardInterface>, card': seq<CardInterface>, bindings: seq<string>,
                              r: Result<Selected, NegotiationError>, r': Result<Selected, NegotiationError>)
    requires Respelled(names, card, card')
    requires exists k: nat, p: nat :: Best(names, card, bindings, k, p) && r == Ok(FromCard(names, card[p]))
    requires exists k: nat, p: nat :: Best(names, card', bindings, k, p) && r' == Ok(FromCard(names, card'[p]))
    ensures r.Ok? && r'.Ok? && r'.value == r.value.(protocolBinding := r'.value.protocolBinding)
  {
    UsableIgnoresSpelling(names, card, card', bindings);
    var k: nat, p: nat :| Best(names, card, bindings, k, p) && r == Ok(FromCard(names, card[p]));
    var k': nat, p': nat :| Best(names, card', bindings, k', p') && r' == Ok(FromCard(names, card'[p']));
    assert Best(names, card, bindings, k', p');
    BestIsUnique(names, card, bindings, k, p, k', p');
  }

  function CanonicalCard(card: seq<CardInterface>): (r: seq<CardInterface>)
    ensures |r| == |card|
  {
    Map((c: CardInterface) => c.(protocolBinding := CanonicalBinding(c.protocolBinding)), card)
  }

  /** Canonicalising a whole card beforehand is a respelling, so it changes no choice. */
  lemma CanonicalCardIsRespelling(card: seq<CardInterface>)
    ensures Respelled(MISSIVE, card, CanonicalCard(card))
  {
    forall i | 0 <= i < |card|
      ensures CanonicalBinding(CanonicalCard(card)[i].protocolBinding) == CanonicalBinding(card[i].protocolBinding)
    {
      CanonicalIsIdempotent(card[i].protocolBinding);
    }
  }
}

/** Turning the loose breakpoint configuration into canonical rules
    (`standardizingRules`). A configuration entry is a bare string, a regular
    expression, an object, or any other value; an object is the list of its
    own enumerable properties in `for ... in` order, each key once. */
module RuleConfig {
  import opened JsString
  import opened JsHost
  import opened DebuggerRules

  datatype ConfigEntry =
    | Text(s: string)
    | Pattern(re: Regex)
    | Object(props: seq<(string, JsValue)>)
    | Scalar  // a number, boolean, null or undefined: `for ... in` visits nothing

  /** A configuration error, naming the entry it was found in (the source
      reports it as a message quoting the entry). */
  datatype ConfigError =
    | MissingNameFilter(entry: ConfigEntry)
    | InvalidEventName(entry: ConfigEntry, eventName: string)

  /** The rules installed and the errors collected, or the `TypeError` thrown
      when an `events` value that is truthy but not a string is split. */
  datatype Normalised = Installed(rules: seq<Rule>, errors: seq<ConfigError>) | TypeError

  /** `first` then `next`: rules and errors in that order; a `TypeError` in
      either ends the whole run. */
  function Then(first: Normalised, next: Normalised): Normalised {
    if first.TypeError? || next.TypeError? then TypeError
    else Installed(first.rules + next.rules, first.errors + next.errors)
  }

  const Nothing := Installed([], [])

  /** The events of an `events` key whose value is falsy. */
  function DefaultEvents(): string { "add | delete | update" }

  /** The event a trimmed event name stands for; only the three exact names do. */
  function EventOf(eventName: string): (r: Option<EventKind>)
    ensures r == Some(Add) <==> eventName == "add"
    ensures r == Some(Update) <==> eventName == "update"
    ensures r == Some(Delete) <==> eventName == "delete"
  {
    if eventName == "add" then Some(Add)
    else if eventName == "delete" then Some(Delete)
    else if eventName == "update" then Some(Update)
    else None
  }

  /** `rule[key]`: the value of the first property with that key, or
      `undefined`. */
  function Lookup(props: seq<(string, JsValue)>, key: string): JsValue {
    if props == [] then Nullish
    else if props[0].0 == key then props[0].1
    else Lookup(props[1..], key)
  }

  /** One `|`-separated segment of an events string: a rule for a valid event
      name, an error for any other. */
  function SegmentOutcome(entry: ConfigEntry, segment: string, nameFilter: JsValue, valueFilter: JsValue): Normalised {
    var eventName := Trim(segment);
    match EventOf(eventName)
    case Some(kind) => Installed([Rule(Some(kind), nameFilter, valueFilter)], [])
    case None => Installed([], [InvalidEventName(entry, eventName)])
  }

  /** The segments in order. */
  function SegmentsOutcome(entry: ConfigEntry, segments: seq<string>, nameFilter: JsValue, valueFilter: JsValue): Normalised
    decreases |segments|
  {
    if segments == [] then Nothing
    else
      var n := |segments| - 1;
      Then(SegmentsOutcome(entry, segments[..n], nameFilter, valueFilter),
           SegmentOutcome(entry, segments[n], nameFilter, valueFilter))
  }

  /** One key of an object entry, reading the entry's properties as
      `rule[...]`. `events` takes its events from its value (defaulting when
      falsy) and its name filter from `name`; `name` and `value` are skipped;
      any other key is itself the events string and its value the name
      filter. Both take the value filter from `value`. A falsy name filter is
      an error; otherwise the events are split on `|`. */
  function KeyOutcome(props: seq<(string, JsValue)>, key: string): Normalised {
    if key != "events" && (key == "name" || key == "value") then Nothing
    else
      var v := Lookup(props, key);
      var events := if key == "events" then (if v.Truthy() then v else Str(DefaultEvents())) else Str(key);
      var nameFilter := if key == "events" then Lookup(props, "name") else v;
      var valueFilter := Lookup(props, "value");
      if !nameFilter.Truthy() then Installed([], [MissingNameFilter(Object(props))])
      else if !events.Str? then TypeError
      else SegmentsOutcome(Object(props), Split(events.s, '|'), nameFilter, valueFilter)
  }

  /** The keys `visited` of the object `props`, in order. */
  function PropsOutcome(props: seq<(string, JsValue)>, visited: seq<(string, JsValue)>): Normalised
    decreases |visited|
  {
    if visited == [] then Nothing
    else
      var n := |visited| - 1;
      Then(PropsOutcome(props, visited[..n]), KeyOutcome(props, visited[n].0))
  }

  /** The rule of a bare string or regular expression: no event, that name
      filter, no value filter. */
  function BareRule(nameFilter: JsValue): Rule {
    Rule(None, nameFilter, Nullish)
  }

  function EntryOutcome(entry: ConfigEntry): Normalised {
    match entry
    case Text(s) => Installed([BareRule(Str(s))], [])
    case Pattern(re) => Installed([BareRule(Re(re))], [])
    case Object(props) => PropsOutcome(props, props)
    case Scalar => Nothing
  }

  /** The whole configuration: entries are popped, so the last is expanded first. */
  function Normalise(config: seq<ConfigEntry>): Normalised
    decreases |config|
  {
    if config == [] then Nothing
    else
      var n := |config| - 1;
      Then(EntryOutcome(config[n]), Normalise(config[..n]))
  }

  lemma ThenAssociative(a: Normalised, b: Normalised, c: Normalised)
    ensures Then(Then(a, b), c) == Then(a, Then(b, c))
  {
  }

  /** Once a key throws, the whole object throws. */
  lemma {:induction false} PropsTypeErrorStays(props: seq<(string, JsValue)>, visited: seq<(string, JsValue)>, j: nat)
    requires j <= |visited|
    requires PropsOutcome(props, visited[..j]).TypeError?
    ensures PropsOutcome(props, visited).TypeError?
    decreases |visited|
  {
    if j < |visited| {
      var n := |visited| - 1;
      assert visited[..n][..j] == visited[..j];
      PropsTypeErrorStays(props, visited[..n], j);
    } else {
      assert visited[..j] == visited;
    }
  }

  lemma SegmentsStep(entry: ConfigEntry, segments: seq<string>, i: nat, nameFilter: JsValue, valueFilter: JsValue)
    requires i < |segments|
    ensures SegmentsOutcome(entry, segments[..i + 1], nameFilter, valueFilter)
         == Then(SegmentsOutcome(entry, segments[..i], nameFilter, valueFilter),
                 SegmentOutcome(entry, segments[i], nameFilter, valueFilter))
  {
    assert segments[..i + 1][..i] == segments[..i];
  }

  lemma PropsStep(props: seq<(string, JsValue)>, j: nat)
    requires j < |props|
    ensures PropsOutcome(props, props[..j + 1])
         == Then(PropsOutcome(props, props[..j]), KeyOutcome(props, props[j].0))
  {
    assert props[..j + 1][..j] == props[..j];
  }

  /** `standardizingRules`: drain the configuration from its end, expanding
      each entry into rules and errors, then install the rules in the order
      they were produced. */
  method StandardizingRules(debuggerRules: seq<ConfigEntry>) returns (outcome: Normalised)
    ensures outcome == Normalise(debuggerRules)
  {
    var pending := debuggerRules;
    var newRules: seq<Rule> := [];
    var ruleConfigErrors: seq<ConfigError> := [];
    while |pending| > 0
      invariant Normalise(debuggerRules) == Then(Installed(newRules, ruleConfigErrors), Normalise(pending))
      decreases |pending|
    {
      var rule := pending[|pending| - 1];
      ghost var popped := pending;
      pending := pending[..|pending| - 1];
      assert Normalise(popped) == Then(EntryOutcome(rule), Normalise(pending));
      ghost var done := Installed(newRules, ruleConfigErrors);
      ThenAssociative(done, EntryOutcome(rule), Normalise(pending));
      match rule {
        case Text(s) =>
          assert ruleConfigErrors + [] == ruleConfigErrors;
          newRules := newRules + [BareRule(Str(s))];
        case Pattern(re) =>
          assert ruleConfigErrors + [] == ruleConfigErrors;
          newRules := newRules + [BareRule(Re(re))];
        case Scalar =>
          assert newRules + [] == newRules && ruleConfigErrors + [] == ruleConfigErrors;
        case Object(props) =>
          var step := ExpandObject(props);
          if step.TypeError? {
            return TypeError;
          }
          newRules := newRules + step.rules;
          ruleConfigErrors := ruleConfigErrors + step.errors;
      }
      assert Installed(newRules, ruleConfigErrors) == Then(done, EntryOutcome(rule));
    }
    outcome := Installed(newRules, ruleConfigErrors);
  }

  /** The `for ... in` loop over the keys of an object entry. */
  method ExpandObject(props: seq<(string, JsValue)>) returns (step: Normalised)
    ensures step == PropsOutcome(props, props)
  {
    var rules: seq<Rule> := [];
    var errors: seq<ConfigError> := [];
    for j := 0 to |props|
      invariant Installed(rules, errors) == PropsOutcome(props, props[..j])
    {
      PropsStep(props, j);
      var keyStep := KeyOutcomeOf(props, props[j].0);
      if keyStep.TypeError? {
        PropsTypeErrorStays(props, props, j + 1);
        return TypeError;
      }
      rules := rules + keyStep.rules;
      errors := errors + keyStep.errors;
    }
    assert props[..|props|] == props;
    step := Installed(rules, errors);
  }

  /** The body of the `for ... in` loop for one key, with the `forEach` over
      the events segments. */
  method KeyOutcomeOf(props: seq<(string, JsValue)>, key: string) returns (step: Normalised)
    ensures step == KeyOutcome(props, key)
  {
    var events: JsValue;
    var cookieNameFilter: JsValue;
    var cookieValueFilter: JsValue;
    if key == "events" {
      var v := Lookup(props, "events");
      events := if v.Truthy() then v else Str(DefaultEvents());
      cookieNameFilter := Lookup(props, "name");
      cookieValueFilter := Lookup(props, "value");
    } else if key != "name" && key != "value" {
      events := Str(key);
      cookieNameFilter := Lookup(props, key);
      cookieValueFilter := Lookup(props, "value");
    } else {
      return Nothing;
    }
    if !cookieNameFilter.Truthy() {
      return Installed([], [MissingNameFilter(Object(props))]);
    }
    if !events.Str? {
      return TypeError;
    }
    step := ExpandEvents(Object(props), events.s, cookieNameFilter, cookieValueFilter);
  }

  /** `events.split("|").forEach(...)`: each trimmed segment that names an
      event adds a rule, any other adds an error. */
  method ExpandEvents(entry: ConfigEntry, events: string, cookieNameFilter: JsValue, cookieValueFilter: JsValue)
    returns (step: Normalised)
    ensures step == SegmentsOutcome(entry, Split(events, '|'), cookieNameFilter, cookieValueFilter)
  {
    var segments := Split(events, '|');
    var rules: seq<Rule> := [];
    var errors: seq<ConfigError> := [];
    for i := 0 to |segments|
      invariant Installed(rules, errors) == SegmentsOutcome(entry, segments[..i], cookieNameFilter, cookieValueFilter)
    {
      SegmentsStep(entry, segments, i, cookieNameFilter, cookieValueFilter);
      var eventName := Trim(segments[i]);
      if eventName != "add" && eventName != "delete" && eventName != "update" {
        assert SegmentOutcome(entry, segments[i], cookieNameFilter, cookieValueFilter)
            == Installed([], [InvalidEventName(entry, eventName)]);
        assert rules + [] == rules;
        errors := errors + [InvalidEventName(entry, eventName)];
      } else {
        assert SegmentOutcome(entry, segments[i], cookieNameFilter, cookieValueFilter)
            == Installed([Rule(EventOf(eventName), cookieNameFilter, cookieValueFilter)], []);
        assert errors + [] == errors;
        rules := rules + [Rule(EventOf(eventName), cookieNameFilter, cookieValueFilter)];
      }
    }
    assert segments[..|segments|] == segments;
    step := Installed(rules, errors);
  }

  /** Normalising two configurations one after the other: the second one's
      entries come out first. */
  lemma {:induction false} NormaliseConcat(first: seq<ConfigEntry>, second: seq<ConfigEntry>)
    ensures Normalise(first + second) == Then(Normalise(second), Normalise(first))
    decreases |second|
  {
    if second == [] {
      assert first + second == first;
    } else {
      var n := |second| - 1;
      var all := first + second;
      assert all[|all| - 1] == second[n];
      assert all[..|all| - 1] == first + second[..n];
      NormaliseConcat(first, second[..n]);
      ThenAssociative(EntryOutcome(second[n]), Normalise(second[..n]), Normalise(first));
    }
  }

  /** The name filter of a bare string or regular-expression entry. */
  function BareFilter(entry: ConfigEntry): JsValue
    requires entry.Text? || entry.Pattern?
  {
    if entry.Text? then Str(entry.s) else Re(entry.re)
  }

  predicate AllBare(config: seq<ConfigEntry>) {
    forall entry :: entry in config ==> entry.Text? || entry.Pattern?
  }

  /** The rules of bare entries, last entry first. */
  function ReversedBareRules(config: seq<ConfigEntry>): seq<Rule>
    requires AllBare(config)
  {
    seq(|config|, i requires 0 <= i < |config| => BareRule(BareFilter(config[|config| - 1 - i])))
  }

  lemma ReversedBareRulesStep(config: seq<ConfigEntry>)
    requires AllBare(config) && config != []
    ensures AllBare(config[..|config| - 1])
    ensures ReversedBareRules(config) ==
      [BareRule(BareFilter(config[|config| - 1]))] + ReversedBareRules(config[..|config| - 1])
  {
    var n := |config| - 1;
    var init := config[..n];
    assert forall entry :: entry in init ==> entry in config;
    var expected := ReversedBareRules(config);
    var rest := ReversedBareRules(init);
    forall i | 1 <= i < |config| ensures expected[i] == rest[i - 1] {
      assert init[|init| - 1 - (i - 1)] == config[|config| - 1 - i];
    }
  }

  /** A configuration of bare strings and regular expressions installs one
      rule per entry, with no errors, in reverse order. */
  lemma {:induction false} BareEntriesReversed(config: seq<ConfigEntry>)
    requires AllBare(config)
    ensures Normalise(config) == Installed(ReversedBareRules(config), [])
    decreases |config|
  {
    if config != [] {
      var n := |config| - 1;
      assert config[n] in config;
      ReversedBareRulesStep(config);
      BareEntriesReversed(config[..n]);
      assert EntryOutcome(config[n]) == Installed([BareRule(BareFilter(config[n]))], []);
    }
  }

  /** Keys of an object that are only `name` and `value` give nothing. */
  lemma {:induction false} NameValueKeysGiveNothing(props: seq<(string, JsValue)>, visited: seq<(string, JsValue)>)
    requires forall p :: p in visited ==> p.0 == "name" || p.0 == "value"
    ensures PropsOutcome(props, visited) == Nothing
    decreases |visited|
  {
    if visited != [] {
      var n := |visited| - 1;
      assert visited[n] in visited;
      assert forall p :: p in visited[..n] ==> p in visited;
      NameValueKeysGiveNothing(props, visited[..n]);
    }
  }

  /** An object whose only keys are `name` and `value` installs no rule and
      reports no error. */
  lemma NameValueObjectIgnored(props: seq<(string, JsValue)>)
    requires forall p :: p in props ==> p.0 == "name" || p.0 == "value"
    ensures EntryOutcome(Object(props)) == Nothing
  {
    NameValueKeysGiveNothing(props, props);
  }

  /** A key whose name filter is falsy gives exactly one error and no rule,
      whatever its events. */
  lemma MissingNameFilterOneError(props: seq<(string, JsValue)>, key: string)
    requires key != "name" && key != "value"
    requires !Lookup(props, if key == "events" then "name" else key).Truthy()
    ensures KeyOutcome(props, key) == Installed([], [MissingNameFilter(Object(props))])
  {
  }

  /** The rules of the segments that name an event, in segment order: one
      per such segment, carrying the segment's event and the key's filters. */
  function ValidSegmentRules(segments: seq<string>, nameFilter: JsValue, valueFilter: JsValue): (r: seq<Rule>)
    ensures forall rule :: rule in r ==>
      rule.eventName.Some? && rule.nameFilter == nameFilter && rule.valueFilter == valueFilter
    ensures forall kind :: Rule(Some(kind), nameFilter, valueFilter) in r <==>
      exists i :: 0 <= i < |segments| && EventOf(Trim(segments[i])) == Some(kind)
    decreases |segments|
  {
    if segments == [] then []
    else
      var n := |segments| - 1;
      var event := EventOf(Trim(segments[n]));
      var init := ValidSegmentRules(segments[..n], nameFilter, valueFilter);
      assert forall i :: 0 <= i < n ==> segments[..n][i] == segments[i];
      if event.Some? then init + [Rule(event, nameFilter, valueFilter)] else init
  }

  /** The errors of the segments that name no event, in segment order: one
      per such segment, naming its trimmed text. */
  function InvalidSegmentErrors(entry: ConfigEntry, segments: seq<string>): (r: seq<ConfigError>)
    ensures forall e :: e in r ==> e.InvalidEventName? && e.entry == entry && EventOf(e.eventName).None?
    ensures forall i :: 0 <= i < |segments| && EventOf(Trim(segments[i])).None? ==>
      InvalidEventName(entry, Trim(segments[i])) in r
    decreases |segments|
  {
    if segments == [] then []
    else
      var n := |segments| - 1;
      var init := InvalidSegmentErrors(entry, segments[..n]);
      assert forall i :: 0 <= i < n ==> segments[..n][i] == segments[i];
      if EventOf(Trim(segments[n])).None? then init + [InvalidEventName(entry, Trim(segments[n]))] else init
  }

  /** Every segment yields either one rule, carrying the key's filters and the
      segment's event, or one error naming the segment as an invalid event
      name: the rules are those of the valid segments and the errors those of
      the invalid ones, each in segment order. Nothing is merged and nothing
      is thrown. */
  lemma SegmentsAccounted(entry: ConfigEntry, segments: seq<string>, nameFilter: JsValue, valueFilter: JsValue)
    ensures var r := SegmentsOutcome(entry, segments, nameFilter, valueFilter);
      && r == Installed(ValidSegmentRules(segments, nameFilter, valueFilter), InvalidSegmentErrors(entry, segments))
      && |r.rules| + |r.errors| == |segments|
      && (forall rule :: rule in r.rules ==>
            rule.eventName.Some? && rule.nameFilter == nameFilter && rule.valueFilter == valueFilter)
      && (forall e :: e in r.errors ==> e.InvalidEventName? && e.entry == entry && EventOf(e.eventName).None?)
  {
    SegmentsFilter(entry, segments, nameFilter, valueFilter);
  }

  /** The expansion of the segments is the valid rules and the invalid
      errors, which together number the segments. */
  lemma {:induction false} SegmentsFilter(entry: ConfigEntry, segments: seq<string>, nameFilter: JsValue, valueFilter: JsValue)
    ensures SegmentsOutcome(entry, segments, nameFilter, valueFilter)
         == Installed(ValidSegmentRules(segments, nameFilter, valueFilter), InvalidSegmentErrors(entry, segments))
    ensures |ValidSegmentRules(segments, nameFilter, valueFilter)| + |InvalidSegmentErrors(entry, segments)| == |segments|
    decreases |segments|
  {
    if segments != [] {
      var n := |segments| - 1;
      SegmentsFilter(entry, segments[..n], nameFilter, valueFilter);
      SegmentsFilterStep(entry, segments, nameFilter, valueFilter);
    }
  }

  /** One more segment adds its rule to the valid rules or its error to the
      invalid errors, exactly as the expansion does. */
  lemma SegmentsFilterStep(entry: ConfigEntry, segments: seq<string>, nameFilter: JsValue, valueFilter: JsValue)
    requires segments != []
    ensures var n := |segments| - 1;
      var init := SegmentsOutcome(entry, segments[..n], nameFilter, valueFilter);
      var rules := ValidSegmentRules(segments[..n], nameFilter, valueFilter);
      var errors := InvalidSegmentErrors(entry, segments[..n]);
      init == Installed(rules, errors) ==>
        && SegmentsOutcome(entry, segments, nameFilter, valueFilter)
           == Installed(ValidSegmentRules(segments, nameFilter, valueFilter), InvalidSegmentErrors(entry, segments))
        && |ValidSegmentRules(segments, nameFilter, valueFilter)| + |InvalidSegmentErrors(entry, segments)|
           == |rules| + |errors| + 1
  {
    var n := |segments| - 1;
    var rules := ValidSegmentRules(segments[..n], nameFilter, valueFilter);
    var errors := InvalidSegmentErrors(entry, segments[..n]);
    var event := EventOf(Trim(segments[n]));
    if event.Some? {
      assert SegmentOutcome(entry, segments[n], nameFilter, valueFilter)
          == Installed([Rule(event, nameFilter, valueFilter)], []);
      assert ValidSegmentRules(segments, nameFilter, valueFilter) == rules + [Rule(event, nameFilter, valueFilter)];
      assert InvalidSegmentErrors(entry, segments) == errors;
      assert errors + [] == errors;
    } else {
      assert SegmentOutcome(entry, segments[n], nameFilter, valueFilter)
          == Installed([], [InvalidEventName(entry, Trim(segments[n]))]);
      assert ValidSegmentRules(segments, nameFilter, valueFilter) == rules;
      assert InvalidSegmentErrors(entry, segments) == errors + [InvalidEventName(entry, Trim(segments[n]))];
      assert rules + [] == rules;
    }
  }

  /** A mix of valid and invalid segments: `add|bogus` gives the `add` rule
      and one error naming `bogus`. */
  lemma ValidThenInvalidSegment(entry: ConfigEntry, a: string, b: string, nameFilter: JsValue, valueFilter: JsValue)
    requires EventOf(Trim(a)) == Some(Add) && EventOf(Trim(b)).None?
    ensures SegmentsOutcome(entry, [a, b], nameFilter, valueFilter) ==
      Installed([Rule(Some(Add), nameFilter, valueFilter)], [InvalidEventName(entry, Trim(b))])
  {
    var segments := [a, b];
    SegmentsStep(entry, segments, 0, nameFilter, valueFilter);
    SegmentsStep(entry, segments, 1, nameFilter, valueFilter);
    assert segments[..0] == [] && segments[..2] == segments;
  }

  /** When every segment names an event, one rule per segment comes out, in
      order, duplicates included, and no error. */
  lemma ValidSegmentsAllInstalled(entry: ConfigEntry, segments: seq<string>, nameFilter: JsValue, valueFilter: JsValue)
    requires forall i :: 0 <= i < |segments| ==> EventOf(Trim(segments[i])).Some?
    ensures var r := SegmentsOutcome(entry, segments, nameFilter, valueFilter);
      && r == Installed(ValidSegmentRules(segments, nameFilter, valueFilter), [])
      && |r.rules| == |segments|
      && forall i :: 0 <= i < |segments| ==> r.rules[i] == Rule(EventOf(Trim(segments[i])), nameFilter, valueFilter)
  {
    SegmentsFilter(entry, segments, nameFilter, valueFilter);
    AllValidSegmentRules(segments, nameFilter, valueFilter);
  }

  /** The last segment adds its rule when it names an event. */
  lemma ValidSegmentRulesStep(segments: seq<string>, nameFilter: JsValue, valueFilter: JsValue)
    requires segments != [] && EventOf(Trim(segments[|segments| - 1])).Some?
    ensures ValidSegmentRules(segments, nameFilter, valueFilter) ==
      ValidSegmentRules(segments[..|segments| - 1], nameFilter, valueFilter)
        + [Rule(EventOf(Trim(segments[|segments| - 1])), nameFilter, valueFilter)]
  {
  }

  /** When every segment names an event, the valid-segment rules are one
      rule per segment, in order. */
  lemma {:induction false} AllValidSegmentRules(segments: seq<string>, nameFilter: JsValue, valueFilter: JsValue)
    requires forall i :: 0 <= i < |segments| ==> EventOf(Trim(segments[i])).Some?
    ensures var r := ValidSegmentRules(segments, nameFilter, valueFilter);
      && |r| == |segments|
      && forall i :: 0 <= i < |segments| ==> r[i] == Rule(EventOf(Trim(segments[i])), nameFilter, valueFilter)
    decreases |segments|
  {
    if segments != [] {
      var n := |segments| - 1;
      var init := segments[..n];
      assert forall i :: 0 <= i < n ==> init[i] == segments[i];
      AllValidSegmentRules(init, nameFilter, valueFilter);
      ValidSegmentRulesStep(segments, nameFilter, valueFilter);
      assert segments == init + [segments[n]];
      OneRulePerSegment(ValidSegmentRules(init, nameFilter, valueFilter), init, segments[n], nameFilter, valueFilter);
    }
  }

  /** Appending a segment that names an event to segments matched one rule
      each appends its rule. */
  lemma OneRulePerSegment(prefix: seq<Rule>, init: seq<string>, last: string, nameFilter: JsValue, valueFilter: JsValue)
    requires |prefix| == |init|
    requires forall i :: 0 <= i < |init| ==> prefix[i] == Rule(EventOf(Trim(init[i])), nameFilter, valueFilter)
    ensures var r := prefix + [Rule(EventOf(Trim(last)), nameFilter, valueFilter)];
      var segments := init + [last];
      && |r| == |segments|
      && forall i :: 0 <= i < |segments| ==> r[i] == Rule(EventOf(Trim(segments[i])), nameFilter, valueFilter)
  {
  }

  /** What every installed rule looks like: a rule without event comes from
      a bare string or regular expression and has no value filter; a rule
      with an event has a truthy name filter. */
  predicate Canonical(rule: Rule) {
    if rule.eventName.None? then (rule.nameFilter.Str? || rule.nameFilter.Re?) && rule.valueFilter == Nullish
    else rule.nameFilter.Truthy()
  }

  predicate AllCanonical(outcome: Normalised) {
    outcome.Installed? ==> forall rule :: rule in outcome.rules ==> Canonical(rule)
  }

  lemma ThenCanonical(first: Normalised, next: Normalised)
    requires AllCanonical(first) && AllCanonical(next)
    ensures AllCanonical(Then(first, next))
  {
  }

  lemma KeyCanonical(props: seq<(string, JsValue)>, key: string)
    ensures AllCanonical(KeyOutcome(props, key))
  {
    var v := Lookup(props, key);
    var nameFilter := if key == "events" then Lookup(props, "name") else v;
    var events := if key == "events" then (if v.Truthy() then v else Str(DefaultEvents())) else Str(key);
    if !(key != "events" && (key == "name" || key == "value")) && nameFilter.Truthy() && events.Str? {
      SegmentsAccounted(Object(props), Split(events.s, '|'), nameFilter, Lookup(props, "value"));
    }
  }

  lemma {:induction false} PropsCanonical(props: seq<(string, JsValue)>, visited: seq<(string, JsValue)>)
    ensures AllCanonical(PropsOutcome(props, visited))
    decreases |visited|
  {
    if visited != [] {
      var n := |visited| - 1;
      PropsCanonical(props, visited[..n]);
      KeyCanonical(props, visited[n].0);
      ThenCanonical(PropsOutcome(props, visited[..n]), KeyOutcome(props, visited[n].0));
    }
  }

  /** Every rule the normaliser installs is canonical. */
  lemma {:induction false} NormaliseCanonical(config: seq<ConfigEntry>)
    ensures AllCanonical(Normalise(config))
    decreases |config|
  {
    if config != [] {
      var n := |config| - 1;
      NormaliseCanonical(config[..n]);
      if config[n].Object? {
        PropsCanonical(config[n].props, config[n].props);
      }
      ThenCanonical(EntryOutcome(config[n]), Normalise(config[..n]));
    }
  }

  lemma ThreeSegments(a: string, d: string, u: string)
    requires '|' !in a && '|' !in d && '|' !in u
    ensures Split(a + ['|'] + d + ['|'] + u, '|') == [a, d, u]
  {
    SplitNone(u, '|');
    SplitFirst(d, '|', u);
    SplitFirst(a, '|', d + ['|'] + u);
    assert a + ['|'] + d + ['|'] + u == a + ['|'] + (d + ['|'] + u);
  }

  /** The default events string splits into three padded names. */
  lemma DefaultEventsSplit()
    ensures Split(DefaultEvents(), '|') == ["add ", " delete ", " update"]
  {
    assert DefaultEvents() == "add " + ['|'] + " delete " + ['|'] + " update";
    ThreeSegments("add ", " delete ", " update");
  }

  lemma PaddedEventNames()
    ensures Trim("add ") == "add" && Trim(" delete ") == "delete" && Trim(" update") == "update"
  {
    assert Trim("add ") == "add" by {
      assert "add " == [] + "add" + " ";
      TrimAround([], "add", " ");
    }
    assert Trim(" delete ") == "delete" by {
      assert " delete " == " " + "delete" + " ";
      TrimAround(" ", "delete", " ");
    }
    assert Trim(" update") == "update" by {
      assert " update" == " " + "update" + [];
      TrimAround(" ", "update", []);
    }
  }

  /** A key `events` with a falsy value and a truthy name filter stands for
      the three segments of the default events string: `add`, `delete` and
      `update`, each padded with spaces that trimming removes. */
  lemma DefaultEventsExpand(props: seq<(string, JsValue)>)
    requires !Lookup(props, "events").Truthy() && Lookup(props, "name").Truthy()
    ensures KeyOutcome(props, "events") ==
      SegmentsOutcome(Object(props), ["add ", " delete ", " update"], Lookup(props, "name"), Lookup(props, "value"))
    ensures Trim("add ") == "add" && Trim(" delete ") == "delete" && Trim(" update") == "update"
  {
    DefaultEventsSplit();
    PaddedEventNames();
  }

  lemma ThreeValidSegments(entry: ConfigEntry, a: string, d: string, u: string, nameFilter: JsValue, valueFilter: JsValue)
    requires EventOf(Trim(a)) == Some(Add) && EventOf(Trim(d)) == Some(Delete) && EventOf(Trim(u)) == Some(Update)
    ensures SegmentsOutcome(entry, [a, d, u], nameFilter, valueFilter) ==
      Installed([Rule(Some(Add), nameFilter, valueFilter), Rule(Some(Delete), nameFilter, valueFilter),
                 Rule(Some(Update), nameFilter, valueFilter)], [])
  {
    var segments := [a, d, u];
    SegmentsStep(entry, segments, 0, nameFilter, valueFilter);
    SegmentsStep(entry, segments, 1, nameFilter, valueFilter);
    SegmentsStep(entry, segments, 2, nameFilter, valueFilter);
    assert segments[..0] == [] && segments[..3] == segments;
  }

  /** The three default segments install add, delete and update, in that order. */
  lemma DefaultSegmentsInstalled(entry: ConfigEntry, nameFilter: JsValue, valueFilter: JsValue)
    ensures SegmentsOutcome(entry, ["add ", " delete ", " update"], nameFilter, valueFilter) ==
      Installed([Rule(Some(Add), nameFilter, valueFilter), Rule(Some(Delete), nameFilter, valueFilter),
                 Rule(Some(Update), nameFilter, valueFilter)], [])
  {
    PaddedEventNames();
    ThreeValidSegments(entry, "add ", " delete ", " update", nameFilter, valueFilter);
  }

  /** An object with `events` and `value` keys but no name filter installs
      nothing; each `events` key reports the missing name filter. */
  lemma {:induction false} EventsWithoutNameRejected(props: seq<(string, JsValue)>, visited: seq<(string, JsValue)>)
    requires forall p :: p in visited ==> p.0 == "events" || p.0 == "value"
    requires !Lookup(props, "name").Truthy()
    ensures PropsOutcome(props, visited).Installed?
    ensures PropsOutcome(props, visited).rules == []
    ensures forall e :: e in PropsOutcome(props, visited).errors ==> e == MissingNameFilter(Object(props))
    decreases |visited|
  {
    if visited != [] {
      var n := |visited| - 1;
      assert visited[n] in visited;
      assert forall p :: p in visited[..n] ==> p in visited;
      EventsWithoutNameRejected(props, visited[..n]);
    }
  }

  /** An object entry whose `events` value is truthy but not a string, with
      a truthy `name`, makes normalising throw, wherever the entry stands in
      the configuration. */
  lemma NonStringEventsThrows(before: seq<ConfigEntry>, props: seq<(string, JsValue)>, j: nat, after: seq<ConfigEntry>)
    requires j < |props| && props[j].0 == "events"
    requires Lookup(props, "events").Truthy() && !Lookup(props, "events").Str?
    requires Lookup(props, "name").Truthy()
    ensures Normalise(before + [Object(props)] + after).TypeError?
  {
    assert KeyOutcome(props, props[j].0) == TypeError;
    PropsStep(props, j);
    PropsTypeErrorStays(props, props, j + 1);
    NormaliseConcat(before, [Object(props)]);
    assert Normalise([Object(props)]) == Then(EntryOutcome(Object(props)), Nothing) by {
      assert [Object(props)][..0] == [];
    }
    NormaliseConcat(before + [Object(props)], after);
  }

  /** A key other than `events`, `name` and `value`, with a truthy value, is
      itself the events string: it installs the rules of the segments of the
      key that name an event, each with the key's value as name filter and
      `value` as value filter, and reports the other segments as errors. */
  lemma EventNameKeyExpands(props: seq<(string, JsValue)>, key: string)
    requires key != "events" && key != "name" && key != "value"
    requires Lookup(props, key).Truthy()
    ensures KeyOutcome(props, key) ==
      Installed(ValidSegmentRules(Split(key, '|'), Lookup(props, key), Lookup(props, "value")),
                InvalidSegmentErrors(Object(props), Split(key, '|')))
  {
    SegmentsAccounted(Object(props), Split(key, '|'), Lookup(props, key), Lookup(props, "value"));
  }

  /** A key `events` whose value is a non-empty string, with a truthy `name`,
      installs the rules of the segments of that string that name an event,
      each with `name` as name filter and `value` as value filter, and reports
      the other segments as errors. */
  lemma EventsKeyExpands(props: seq<(string, JsValue)>, events: string)
    requires Lookup(props, "events") == Str(events) && events != ""
    requires Lookup(props, "name").Truthy()
    ensures KeyOutcome(props, "events") ==
      Installed(ValidSegmentRules(Split(events, '|'), Lookup(props, "name"), Lookup(props, "value")),
                InvalidSegmentErrors(Object(props), Split(events, '|')))
  {
    SegmentsAccounted(Object(props), Split(events, '|'), Lookup(props, "name"), Lookup(props, "value"));
  }
}

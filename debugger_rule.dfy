/** Breakpoint rules (`DebuggerRule`) and the loop that tests every rule
    against one cookie event (`testDebuggerRules`). The per-event switch
    `enableEventDebugger` is a parameter; `DefaultGate` holds its shipped
    setting. */
module DebuggerRules {
  import opened JsHost

  /** The three events the hook reports: "add", "update" and "delete". */
  datatype EventKind = Add | Update | Delete

  /** The per-event breakpoint switch. */
  datatype Gate = Gate(add: bool, update: bool, delete: bool) {
    predicate Enabled(kind: EventKind) {
      match kind
      case Add => add
      case Update => update
      case Delete => delete
    }

    /** Every event this gate lets through, `wider` lets through too. */
    predicate Within(wider: Gate) {
      (add ==> wider.add) && (update ==> wider.update) && (delete ==> wider.delete)
    }
  }

  /** The shipped setting: add and update on, delete off. */
  const DefaultGate := Gate(true, true, false)

  /** What a rule is tested against: the event, the decoded cookie name and
      the decoded value (absent for a delete of a cookie with no known value). */
  datatype RuleInput = RuleInput(kind: EventKind, name: string, value: Option<string>)

  /** A name or value filter applied to a subject: an absent or empty subject
      and a falsy filter never match; a string filter matches by equality, a
      regular expression by its test, anything else never. */
  predicate FilterMatches(filter: JsValue, subject: Option<string>, regexTest: (Regex, string) -> bool) {
    if subject.None? || subject.value == "" || !filter.Truthy() then false
    else
      match filter
      case Str(s) => s == subject.value
      case Re(re) => regexTest(re, subject.value)
      case _ => false
  }

  /** A canonical rule: an optional event (`None` is a rule without event,
      which matches every event) and the two filters. */
  datatype Rule = Rule(eventName: Option<EventKind>, nameFilter: JsValue, valueFilter: JsValue) {

    predicate TestByEventName(gate: Gate, kind: EventKind) {
      if !gate.Enabled(kind) then false
      else if eventName.None? then true
      else eventName.value == kind
    }

    predicate TestByCookieNameFilter(name: string, regexTest: (Regex, string) -> bool) {
      FilterMatches(nameFilter, Some(name), regexTest)
    }

    predicate TestByCookieValueFilter(value: Option<string>, regexTest: (Regex, string) -> bool) {
      FilterMatches(valueFilter, value, regexTest)
    }

    predicate Test(gate: Gate, input: RuleInput, regexTest: (Regex, string) -> bool) {
      && TestByEventName(gate, input.kind)
      && (TestByCookieNameFilter(input.name, regexTest) || TestByCookieValueFilter(input.value, regexTest))
    }
  }

  /** A rule matches exactly when the gate is on for the event, the rule has
      no event or the same event, and the name is a non-empty string equal to
      a string filter or accepted by a regular-expression filter, or the value
      is, likewise, for the value filter. */
  lemma TestCharacterisation(rule: Rule, gate: Gate, input: RuleInput, regexTest: (Regex, string) -> bool)
    ensures rule.Test(gate, input, regexTest) <==>
      && gate.Enabled(input.kind)
      && (rule.eventName == None || rule.eventName == Some(input.kind))
      && (|| (input.name != "" && rule.nameFilter == Str(input.name))
          || (input.name != "" && rule.nameFilter.Re? && regexTest(rule.nameFilter.re, input.name))
          || (input.value.Some? && input.value.value != "" && rule.valueFilter == Str(input.value.value))
          || (input.value.Some? && input.value.value != "" && rule.valueFilter.Re?
              && regexTest(rule.valueFilter.re, input.value.value)))
  {
  }

  /** An event whose switch is off never matches, whatever the rule. */
  lemma GateOffNeverMatches(rule: Rule, gate: Gate, input: RuleInput, regexTest: (Regex, string) -> bool)
    requires !gate.Enabled(input.kind)
    ensures !rule.Test(gate, input, regexTest)
  {
  }

  /** Turning more switches on never stops a rule from matching. */
  lemma GateMonotone(rule: Rule, gate: Gate, wider: Gate, input: RuleInput, regexTest: (Regex, string) -> bool)
    requires gate.Within(wider)
    requires rule.Test(gate, input, regexTest)
    ensures rule.Test(wider, input, regexTest)
  {
  }

  /** The indices of the rules that match, in order. */
  function MatchingRules(rules: seq<Rule>, gate: Gate, input: RuleInput, regexTest: (Regex, string) -> bool): (r: seq<nat>)
    ensures forall j :: 0 <= j < |r| ==> r[j] < |rules| && rules[r[j]].Test(gate, input, regexTest)
    ensures forall i :: 0 <= i < |rules| && rules[i].Test(gate, input, regexTest) ==> i in r
    ensures forall j, k :: 0 <= j < k < |r| ==> r[j] < r[k]
    decreases |rules|
  {
    if rules == [] then []
    else
      var n := |rules| - 1;
      var init := MatchingRules(rules[..n], gate, input, regexTest);
      if rules[n].Test(gate, input, regexTest) then init + [n] else init
  }

  /** The set of indices of the rules that match. */
  ghost function MatchSet(rules: seq<Rule>, gate: Gate, input: RuleInput, regexTest: (Regex, string) -> bool): set<nat> {
    set i: nat | i < |rules| && rules[i].Test(gate, input, regexTest)
  }

  /** The matching set grows by the last rule's index exactly when the last rule matches. */
  lemma MatchSetStep(rules: seq<Rule>, gate: Gate, input: RuleInput, regexTest: (Regex, string) -> bool)
    requires rules != []
    ensures var n := |rules| - 1;
      MatchSet(rules, gate, input, regexTest) ==
        MatchSet(rules[..n], gate, input, regexTest) + (if rules[n].Test(gate, input, regexTest) then {n} else {})
  {
    var n := |rules| - 1;
    var init := rules[..n];
    forall i | 0 <= i < n ensures init[i] == rules[i] { }
  }

  /** One breakpoint per matching rule: the number of hits is the number of
      rules whose test passes. */
  lemma {:induction false} MatchCount(rules: seq<Rule>, gate: Gate, input: RuleInput, regexTest: (Regex, string) -> bool)
    ensures |MatchingRules(rules, gate, input, regexTest)| == |MatchSet(rules, gate, input, regexTest)|
    decreases |rules|
  {
    if rules != [] {
      var n := |rules| - 1;
      MatchCount(rules[..n], gate, input, regexTest);
      MatchSetStep(rules, gate, input, regexTest);
      assert n !in MatchSet(rules[..n], gate, input, regexTest);
    }
  }

  /** Under the shipped switches a delete never breaks. */
  lemma DefaultGateNeverBreaksOnDelete(rules: seq<Rule>, input: RuleInput, regexTest: (Regex, string) -> bool)
    requires input.kind == Delete
    ensures MatchingRules(rules, DefaultGate, input, regexTest) == []
  {
  }

  /** `testDebuggerRules`: every rule is tested, none short-circuits the
      others, and each match is one breakpoint, recorded by its index. */
  method TestDebuggerRules(rules: seq<Rule>, gate: Gate, input: RuleInput, regexTest: (Regex, string) -> bool)
    returns (hits: seq<nat>)
    ensures hits == MatchingRules(rules, gate, input, regexTest)
    ensures |hits| == |MatchSet(rules, gate, input, regexTest)|
  {
    hits := [];
    for i := 0 to |rules|
      invariant hits == MatchingRules(rules[..i], gate, input, regexTest)
    {
      assert rules[..i + 1][..i] == rules[..i];
      if rules[i].Test(gate, input, regexTest) {
        hits := hits + [i];
      }
    }
    assert rules[..|rules|] == rules;
    MatchCount(rules, gate, input, regexTest);
  }
}

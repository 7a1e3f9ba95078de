/** The reaction to one write of `document.cookie` (`cc11001100_onSetCookie`
    and the event handlers it calls): parse the written string, read the
    current cookies, classify the write as a delete, an update or an add, and
    test the breakpoint rules against it. The clock reading and the current
    cookie text are parameters. */
module CookieMonitor {
  import opened JsString
  import opened JsHost
  import opened CookieParse
  import opened CookieSnapshot
  import opened DebuggerRules
  import opened RuleConfig

  /** What a write does to a cookie, with the values the handlers receive. A
      delete's value is absent when neither the write nor the current cookies
      give one. */
  datatype ChangeEvent =
    | Deleted(name: string, deletedValue: Option<string>)
    | Updated(name: string, oldValue: string, newValue: string)
    | Added(name: string, value: string)
  {
    function Kind(): EventKind {
      match this
      case Deleted(_, _) => Delete
      case Updated(_, _, _) => Update
      case Added(_, _) => Add
    }

    /** `cookieValueChanged` of an update. */
    predicate ValueChanged()
      requires Updated?
    {
      oldValue != newValue
    }
  }

  /** The expiry lies at or before `now`; an expiry that did not parse
      compares false, like `NaN`. */
  predicate Expired(expires: Expiry, now: int) {
    expires.At? && now >= expires.millis
  }

  /** The value a delete reports: the written value when non-empty, else the
      current value of that cookie, else none. */
  function DeletedValue(pair: CookiePair, snapshot: map<string, CookiePair>): (r: Option<string>)
    ensures pair.value != "" ==> r == Some(pair.value)
    ensures pair.value == "" && pair.name in snapshot ==> r == Some(snapshot[pair.name].value)
    ensures pair.value == "" && pair.name !in snapshot ==> r == None
  {
    if pair.value != "" then Some(pair.value)
    else if pair.name in snapshot then Some(snapshot[pair.name].value)
    else None
  }

  /** The case split of `cc11001100_onSetCookie`: a delete when the expiry has
      passed, whatever the current cookies are; otherwise an update when the
      name is already set, else an add. */
  function Classify(pair: CookiePair, snapshot: map<string, CookiePair>, now: int): (e: ChangeEvent)
    ensures e.name == pair.name
    ensures e.Deleted? <==> Expired(pair.expires, now)
    ensures e.Updated? <==> !Expired(pair.expires, now) && pair.name in snapshot
    ensures e.Added? <==> !Expired(pair.expires, now) && pair.name !in snapshot
    ensures e.Deleted? ==> e.deletedValue == DeletedValue(pair, snapshot)
    ensures e.Updated? ==> e.oldValue == snapshot[pair.name].value && e.newValue == pair.value
    ensures e.Added? ==> e.value == pair.value
  {
    if Expired(pair.expires, now) then Deleted(pair.name, DeletedValue(pair, snapshot))
    else if pair.name in snapshot then Updated(pair.name, snapshot[pair.name].value, pair.value)
    else Added(pair.name, pair.value)
  }

  /** Whether a write is a delete depends on its expiry and the clock only. */
  lemma DeleteIgnoresSnapshot(pair: CookiePair, s1: map<string, CookiePair>, s2: map<string, CookiePair>, now: int)
    ensures Classify(pair, s1, now).Deleted? == Classify(pair, s2, now).Deleted?
  {
  }

  /** A write that is a delete now is a delete at any later time. */
  lemma DeleteMonotoneInTime(pair: CookiePair, snapshot: map<string, CookiePair>, now: int, later: int)
    requires now <= later
    requires Classify(pair, snapshot, now).Deleted?
    ensures Classify(pair, snapshot, later).Deleted?
  {
  }

  /** A session cookie, or one whose expiry did not parse, is never a delete. */
  lemma NoDateNeverDeletes(pair: CookiePair, snapshot: map<string, CookiePair>, now: int)
    requires !pair.expires.At?
    ensures Classify(pair, snapshot, now).Updated? <==> pair.name in snapshot
    ensures Classify(pair, snapshot, now).Added? <==> pair.name !in snapshot
  {
  }

  /** What the rules are tested with: the event, the cookie name, and the new
      value (for a delete, the reported value). */
  function RuleInputOf(e: ChangeEvent): (input: RuleInput)
    ensures input.kind == e.Kind() && input.name == e.name
    ensures input.value == match e
      case Deleted(_, value) => value
      case Updated(_, _, newValue) => Some(newValue)
      case Added(_, value) => Some(value)
  {
    match e
    case Deleted(name, value) => RuleInput(Delete, name, value)
    case Updated(name, _, newValue) => RuleInput(Update, name, Some(newValue))
    case Added(name, value) => RuleInput(Add, name, Some(value))
  }

  /** `onCookieUpdate` returns before logging and testing rules when unchanged
      updates are ignored and the value did not change. */
  predicate Suppressed(e: ChangeEvent, ignoreUpdateButNotChanged: bool) {
    ignoreUpdateButNotChanged && e.Updated? && !e.ValueChanged()
  }

  /** The script's settings: the per-event breakpoint switch, the
      `ignoreUpdateButNotChanged` flag and the installed rules. */
  datatype Settings = Settings(gate: Gate, ignoreUpdateButNotChanged: bool, rules: seq<Rule>)

  /** The shipped settings around a set of installed rules. */
  function DefaultSettings(rules: seq<Rule>): Settings {
    Settings(DefaultGate, false, rules)
  }

  /** The outcome of one write: the hook threw (and the write is lost), the event was
      suppressed, or it was reported with the indices of the rules that broke. */
  datatype Reaction =
    | Threw
    | Ignored(event: ChangeEvent)
    | Reported(event: ChangeEvent, breakpoints: seq<nat>)

  /** `reaction` is what a write of `newValue` does: it throws exactly when
      parsing it or reading the current cookies throws; otherwise its event
      is the classified one, it is ignored exactly when suppressed, and when
      reported its breakpoints are the rules that match. */
  predicate ReactsTo(reaction: Reaction, newValue: string, documentCookie: string, now: int, settings: Settings, host: Host) {
    && (reaction.Threw? <==>
          ParsedSetCookie(newValue, host).None? || Snapshot(documentCookie, host.decode).None?)
    && (!reaction.Threw? ==>
          var e := Classify(ParsedSetCookie(newValue, host).value, Snapshot(documentCookie, host.decode).value, now);
          && reaction.event == e
          && (reaction.Ignored? <==> Suppressed(e, settings.ignoreUpdateButNotChanged))
          && (reaction.Reported? ==>
                reaction.breakpoints == MatchingRules(settings.rules, settings.gate, RuleInputOf(e), host.regexTest)))
  }

  /** `cc11001100_onSetCookie(newValue)` with `document.cookie` reading
      `documentCookie` and the clock reading `now`. */
  method OnSetCookie(newValue: string, documentCookie: string, now: int, settings: Settings, host: Host)
    returns (reaction: Reaction)
    ensures ReactsTo(reaction, newValue, documentCookie, now, settings, host)
  {
    var cookiePair := ParseSetCookie(newValue, host);
    if cookiePair.None? {
      return Threw;
    }
    var currentCookieMap := GetCurrentCookieMap(documentCookie, host);
    if currentCookieMap.None? {
      return Threw;
    }
    var pair := cookiePair.value;
    var current := currentCookieMap.value;
    var event := Classify(pair, current, now);
    if event.Updated? {
      var cookieValueChanged := event.oldValue != event.newValue;
      if settings.ignoreUpdateButNotChanged && !cookieValueChanged {
        return Ignored(event);
      }
    }
    var hits := TestDebuggerRules(settings.rules, settings.gate, RuleInputOf(event), host.regexTest);
    reaction := Reported(event, hits);
  }

  /** Under the shipped settings every write is reported (none is
      suppressed) and a delete never breaks. */
  lemma DefaultSettingsReaction(e: ChangeEvent, rules: seq<Rule>, regexTest: (Regex, string) -> bool)
    ensures !Suppressed(e, DefaultSettings(rules).ignoreUpdateButNotChanged)
    ensures e.Deleted? ==> MatchingRules(rules, DefaultGate, RuleInputOf(e), regexTest) == []
  {
    if e.Deleted? {
      DefaultGateNeverBreaksOnDelete(rules, RuleInputOf(e), regexTest);
    }
  }

  /** A write of `n=v` with no attributes, on a text where `n` is not yet
      set, is an add of the decoded name and value. */
  lemma PlainWriteOfNewCookieIsAdd(n: string, v: string, host: Host, snapshot: map<string, CookiePair>, now: int)
    requires '=' !in n && '=' !in v && ';' !in n && ';' !in v
    requires host.decode(Trim(n)).Some? && host.decode(Trim(v)).Some?
    requires host.decode(Trim(n)).value !in snapshot
    ensures ParsedSetCookie(n + "=" + v, host).Some?
    ensures Classify(ParsedSetCookie(n + "=" + v, host).value, snapshot, now)
         == Added(host.decode(Trim(n)).value, host.decode(Trim(v)).value)
  {
    var written := n + "=" + v;
    NameAndValue(n, v, "", "");
    assert written + "" + "" == written;
    assert ';' !in written;
    SplitNone(written, ';');
    ExpiryWithoutExpires(written, host.parseDate);
  }

  /** A write after the script has started with breakpoint configuration
      `config`. Start-up normalises the configuration before `class
      CookiePair` is defined; when normalising throws, the script stops
      there, the setter is already installed, and every later write throws
      at `new CookiePair` and is lost. Otherwise the write reacts under the
      installed rules. */
  method OnSetCookieAfterStartup(
    config: seq<ConfigEntry>, gate: Gate, ignoreUpdateButNotChanged: bool,
    newValue: string, documentCookie: string, now: int, host: Host)
    returns (reaction: Reaction)
    ensures Normalise(config).TypeError? ==> reaction == Threw
    ensures Normalise(config).Installed? ==>
      ReactsTo(reaction, newValue, documentCookie, now,
               Settings(gate, ignoreUpdateButNotChanged, Normalise(config).rules), host)
  {
    var outcome := StandardizingRules(config);
    if outcome.TypeError? {
      return Threw;
    }
    reaction := OnSetCookie(newValue, documentCookie, now,
                            Settings(gate, ignoreUpdateButNotChanged, outcome.rules), host);
  }
}

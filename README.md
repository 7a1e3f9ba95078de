# JS Cookie Monitor/Debugger Hook — a Dafny model of its decision logic

The userscript `js-cookie-monitor-debugger-hook.js` intercepts every write to
`document.cookie`. For each write it decides whether the write adds, updates or
deletes a cookie. It then pauses in the debugger once for every configured
breakpoint rule that matches the write. This project models that decision logic
and proves what it promises. The model covers five parts:

- **Cookie-write parser** (`parseSetCookie`): module `CookieParse`.
  - A method, `ParseSetCookie`, has the same loop as the source.
  - It is proved equal to the function `ParsedSetCookie`.
- **Snapshot parser** (`getCurrentCookieMap`): module `CookieSnapshot`.
  - The method `GetCurrentCookieMap` is proved equal to `Snapshot`.
  - The text of `document.cookie` is a parameter.
- **Event classifier** (`cc11001100_onSetCookie` and the suppression check of `onCookieUpdate`): module `CookieMonitor`.
  - The function `Classify` gives the case split.
  - The method `OnSetCookie` gives the whole reaction to one write. The current time is a parameter.
- **Rule matcher** (`DebuggerRule` and `testDebuggerRules`): module `DebuggerRules`.
  - The `debugger` statement is recorded as the index of the rule that matched.
- **Rule normaliser** (`standardizingRules`): module `RuleConfig`.
  - The method `StandardizingRules` is proved equal to the function `Normalise`.

Three support modules model the JavaScript primitives the code uses:

- `JsString`: `split` with and without a limit, `join`, `trim`, and ASCII `toLowerCase`.
- `JsMap`: a `Map` filled by `set`, where the last write wins.
- `JsHost`: configuration values and their truthiness, and the host library calls.
  - `decodeURIComponent`, `new Date(...).getTime()` and `RegExp.prototype.test` are given functions.
  - A `URIError` thrown by `decodeURIComponent` becomes `None`.
  - `NaN` becomes `None`.

Some behaviour follows the code where a plain description of the script would
suggest otherwise:

- An object rule with only a `name` key (`{name: "x"}`) installs no rule and reports no error.
  - Only the `events` key and event-name keys produce rules.
- An object with `events` and `value` but no `name` reports a missing-name error.
- An object with only a `value` key gives nothing at all.
- A bare string rule is an equality filter on the cookie name, not a pattern.
- A truthy `events` value that is not a string makes `events.split` throw a `TypeError`. The model has an outcome for this: `Normalised.TypeError`. Because this happens at start-up, before `class CookiePair` is defined, every later write then throws and is lost (`CookieMonitor.OnSetCookieAfterStartup`).
- A write whose name or value contains a malformed percent sequence makes `decodeURIComponent` throw inside the setter. The write then never reaches the browser's cookie jar. In the model this is the `Threw` reaction.
- The same holds for the cookies already set: when some name or value in `document.cookie` holds a malformed percent sequence, reading the current cookies throws (`CookieSnapshot.SnapshotThrows`). Every write then throws and is lost, however well-formed it is, until that cookie is gone.

## Model

| member | source | states |
|---|---|---|
| JsString.SplitPieces | 001-cookie-hook/js-cookie-monitor-debugger-hook.js:247 | the pieces of a split contain no separator, and joining them with it gives back the original text |
| JsString.SplitJoin | 001-cookie-hook/js-cookie-monitor-debugger-hook.js:247 | splitting the join of separator-free pieces returns those pieces |
| JsString.SplitFirst | 001-cookie-hook/js-cookie-monitor-debugger-hook.js:248 | the first piece of a split is exactly the text before the first separator |
| JsString.TrimIdempotent | 001-cookie-hook/js-cookie-monitor-debugger-hook.js:375 | a trimmed string has no white space at either end, and trimming it again changes nothing |
| JsString.TrimAround | 001-cookie-hook/js-cookie-monitor-debugger-hook.js:375 | trimming removes exactly the white space around a core with non-white ends |
| JsMap.FromEntriesKeys | 001-cookie-hook/js-cookie-monitor-debugger-hook.js:256 | the keys of a map filled by `set` calls are exactly the keys that were set |
| JsMap.FromEntriesLastWins | 001-cookie-hook/js-cookie-monitor-debugger-hook.js:256 | a key holds the value of the last `set` with that key |
| JsMap.OtherKeyIrrelevant | 001-cookie-hook/js-cookie-monitor-debugger-hook.js:256 | a `set` of another key, wherever it occurs, leaves a key's presence and value unchanged |
| CookieParse.ParsedSetCookie | 001-cookie-hook/js-cookie-monitor-debugger-hook.js:245-261 | a write parses exactly when the trimmed name decodes and, if there is a value part, the value decodes; the pair then holds the decoded name, the decoded value (`""` without `=`) and the expiry of the `expires` attribute |
| CookieParse.ParseSetCookie | 001-cookie-hook/js-cookie-monitor-debugger-hook.js:245-261 | the loop that fills the attribute map computes exactly `ParsedSetCookie` |
| CookieParse.AttributesStep | 001-cookie-hook/js-cookie-monitor-debugger-hook.js:252-257 | each attribute segment sets its trimmed, lower-cased key to its trimmed value, overwriting an earlier entry with that key |
| CookieParse.NameAndValue | 001-cookie-hook/js-cookie-monitor-debugger-hook.js:247-250 | for `n=v`, then an optional `=...`, then an optional `;...`: the name is the trimmed `n`, the value the trimmed `v`, and text from a second `=` on is dropped |
| CookieParse.NameValueSplit | 001-cookie-hook/js-cookie-monitor-debugger-hook.js:248 | `split("=", 2)` of `n=v=...` is exactly `[n, v]` |
| CookieParse.NameWithoutValue | 001-cookie-hook/js-cookie-monitor-debugger-hook.js:248-250 | a first segment without `=` is all name, with no value part |
| CookieParse.FirstSegment | 001-cookie-hook/js-cookie-monitor-debugger-hook.js:247-248 | the name-value segment is everything before the first `;` |
| CookieParse.ExpiryFromLastExpires | 001-cookie-hook/js-cookie-monitor-debugger-hook.js:251-260 | the last `expires` attribute decides the expiry: `null` when its value is empty, else the parsed date |
| CookieParse.ExpiryWithoutExpires | 001-cookie-hook/js-cookie-monitor-debugger-hook.js:258-260 | without an `expires` attribute the expiry is `null` |
| CookieParse.ExpiryIgnoresOtherSegments | 001-cookie-hook/js-cookie-monitor-debugger-hook.js:251-260 | the name-value segment and attributes with other keys (Path, Domain, ...) never change the expiry |
| CookieParse.ExpiresTextIgnoresOther | 001-cookie-hook/js-cookie-monitor-debugger-hook.js:251-259 | removing an attribute whose key is not `expires` leaves the retained `expires` text unchanged |
| CookieParse.SplitSegments | 001-cookie-hook/js-cookie-monitor-debugger-hook.js:247 | a write built from `;`-free segments splits back into those attribute segments |
| CookieSnapshot.GetCurrentCookieMap | 001-cookie-hook/js-cookie-monitor-debugger-hook.js:268-280 | the `forEach` that fills the map computes exactly `Snapshot` |
| CookieSnapshot.DecodeFailureStops | 001-cookie-hook/js-cookie-monitor-debugger-hook.js:273-278 | an entry that fails to decode makes the whole read throw |
| CookieSnapshot.DecodedEntriesThrows | 001-cookie-hook/js-cookie-monitor-debugger-hook.js:273-278 | decoding the entries throws exactly when one entry throws; otherwise there is one decoded entry per entry, in order |
| CookieSnapshot.SnapshotThrows | 001-cookie-hook/js-cookie-monitor-debugger-hook.js:268-280 | an empty cookie text gives the empty map; otherwise the read throws exactly when some entry fails to decode |
| CookieSnapshot.SnapshotContents | 001-cookie-hook/js-cookie-monitor-debugger-hook.js:268-280 | the snapshot has a key for each distinct decoded name and no other, and each name maps to the pair of its last entry |
| CookieSnapshot.EntryWithoutValue | 001-cookie-hook/js-cookie-monitor-debugger-hook.js:274-277 | an entry without `=` is a cookie whose value is `""` |
| CookieSnapshot.EntryWithValue | 001-cookie-hook/js-cookie-monitor-debugger-hook.js:274-277 | an entry `n=v...` is the cookie with the decoded trimmed `n` as name and the decoded trimmed `v` as value; text from a second `=` on is dropped |
| DebuggerRules.TestCharacterisation | 001-cookie-hook/js-cookie-monitor-debugger-hook.js:290-330 | a rule matches iff the gate is on for the event, the rule's event is unset or equal, and a non-empty name or value equals a string filter or passes a regular-expression filter |
| DebuggerRules.GateOffNeverMatches | 001-cookie-hook/js-cookie-monitor-debugger-hook.js:294-298 | when the switch for an event is off, no rule matches it, whatever its filters |
| DebuggerRules.GateMonotone | 001-cookie-hook/js-cookie-monitor-debugger-hook.js:294-304 | turning more switches on never stops a rule from matching |
| DebuggerRules.MatchingRules | 001-cookie-hook/js-cookie-monitor-debugger-hook.js:417-424 | the breakpoints are the indices of the rules that match, each once, in increasing order, and every matching rule is among them |
| DebuggerRules.MatchCount | 001-cookie-hook/js-cookie-monitor-debugger-hook.js:417-424 | the number of breakpoints equals the number of rules whose test passes |
| DebuggerRules.DefaultGateNeverBreaksOnDelete | 001-cookie-hook/js-cookie-monitor-debugger-hook.js:23-27 | with the shipped switches, a delete never breaks |
| DebuggerRules.TestDebuggerRules | 001-cookie-hook/js-cookie-monitor-debugger-hook.js:417-424 | the loop tests every rule without stopping early and records exactly `MatchingRules`, one breakpoint per matching rule |
| CookieMonitor.DeletedValue | 001-cookie-hook/js-cookie-monitor-debugger-hook.js:65 | a delete reports the written value when it is non-empty, else the current value of that cookie, else nothing |
| CookieMonitor.Classify | 001-cookie-hook/js-cookie-monitor-debugger-hook.js:59-77 | exactly one of delete, update and add is chosen: delete iff the expiry has passed; otherwise update iff the name is set, else add. The name is kept, and the values are those the handlers receive |
| CookieMonitor.DeleteIgnoresSnapshot | 001-cookie-hook/js-cookie-monitor-debugger-hook.js:63-67 | whether a write is a delete does not depend on the current cookies |
| CookieMonitor.DeleteMonotoneInTime | 001-cookie-hook/js-cookie-monitor-debugger-hook.js:63 | a write that is a delete now would be a delete at any later time |
| CookieMonitor.NoDateNeverDeletes | 001-cookie-hook/js-cookie-monitor-debugger-hook.js:63-76 | a session cookie, or one whose expiry does not parse, is an update iff its name is set and an add otherwise |
| CookieMonitor.RuleInputOf | 001-cookie-hook/js-cookie-monitor-debugger-hook.js:180 | rules are tested with the event, the name and the new value (for a delete, the reported value) |
| CookieMonitor.OnSetCookie | 001-cookie-hook/js-cookie-monitor-debugger-hook.js:59-77 | a write throws iff its parse or the cookie read throws. Otherwise the event is `Classify`'s. It is ignored iff unchanged updates are ignored and the value is unchanged. Otherwise its breakpoints are `MatchingRules` for that event |
| CookieMonitor.DefaultSettingsReaction | 001-cookie-hook/js-cookie-monitor-debugger-hook.js:23-34 | under the shipped settings no update is suppressed and no delete breaks |
| CookieMonitor.PlainWriteOfNewCookieIsAdd | 001-cookie-hook/js-cookie-monitor-debugger-hook.js:59-76 | a write `n=v` without attributes, for a name not yet set, parses and is an add of the decoded name and value |
| RuleConfig.EventOf | 001-cookie-hook/js-cookie-monitor-debugger-hook.js:376 | only the exact names `add`, `update` and `delete` are events |
| RuleConfig.StandardizingRules | 001-cookie-hook/js-cookie-monitor-debugger-hook.js:336-403 | the pop loop computes exactly `Normalise` of the configuration |
| RuleConfig.ExpandObject | 001-cookie-hook/js-cookie-monitor-debugger-hook.js:352-383 | the `for ... in` loop over an object's keys computes exactly the outcome of its keys in order |
| RuleConfig.KeyOutcomeOf | 001-cookie-hook/js-cookie-monitor-debugger-hook.js:353-373 | one key, reading the entry's properties as `rule[key]`, `rule["name"]` and `rule["value"]`, computes exactly `KeyOutcome` |
| RuleConfig.ExpandEvents | 001-cookie-hook/js-cookie-monitor-debugger-hook.js:374-382 | the `forEach` over the `|`-separated segments computes exactly the outcome of the segments in order |
| RuleConfig.PropsTypeErrorStays | 001-cookie-hook/js-cookie-monitor-debugger-hook.js:374 | once a key throws, the object's expansion throws |
| RuleConfig.NormaliseConcat | 001-cookie-hook/js-cookie-monitor-debugger-hook.js:342-343 | normalising `first + second` gives the rules and errors of `second` before those of `first` |
| RuleConfig.BareEntriesReversed | 001-cookie-hook/js-cookie-monitor-debugger-hook.js:342-348 | bare strings and regular expressions give one rule each, with no event, that name filter and no value filter, in reverse configuration order, with no error |
| RuleConfig.NameValueKeysGiveNothing | 001-cookie-hook/js-cookie-monitor-debugger-hook.js:364-366 | keys `name` and `value` produce no rule and no error |
| RuleConfig.NameValueObjectIgnored | 001-cookie-hook/js-cookie-monitor-debugger-hook.js:352-367 | an object whose only keys are `name` and `value` gives no rule and no error |
| RuleConfig.MissingNameFilterOneError | 001-cookie-hook/js-cookie-monitor-debugger-hook.js:369-373 | a key whose name filter is falsy gives exactly one error and no rule, whatever its events |
| RuleConfig.ValidSegmentRules | 001-cookie-hook/js-cookie-monitor-debugger-hook.js:374-381 | the rules of the segments that name an event, in order: each carries the key's filters and an event, and a rule for an event is present iff some segment trims to that event's name |
| RuleConfig.InvalidSegmentErrors | 001-cookie-hook/js-cookie-monitor-debugger-hook.js:374-379 | the errors of the segments that name no event, in order: each is an invalid-event-name error of the entry whose name is not an event, and every such segment's trimmed text is reported |
| RuleConfig.SegmentsAccounted | 001-cookie-hook/js-cookie-monitor-debugger-hook.js:374-382 | the expansion of the segments is exactly the rules of the valid segments and the errors of the invalid ones, each in segment order, which together number the segments; nothing is merged and nothing throws |
| RuleConfig.SegmentsFilter | 001-cookie-hook/js-cookie-monitor-debugger-hook.js:374-382 | the expansion equals the valid-segment rules and invalid-segment errors, and there is one of the two per segment |
| RuleConfig.ValidThenInvalidSegment | 001-cookie-hook/js-cookie-monitor-debugger-hook.js:374-382 | a valid segment followed by an invalid one (`add|bogus`) gives the `add` rule and one error naming the invalid segment |
| RuleConfig.ValidSegmentsAllInstalled | 001-cookie-hook/js-cookie-monitor-debugger-hook.js:374-382 | when every segment names an event, the expansion is exactly the valid-segment rules with no error: one rule per segment, in order, duplicates included |
| RuleConfig.AllValidSegmentRules | 001-cookie-hook/js-cookie-monitor-debugger-hook.js:374-381 | when every segment names an event, the valid-segment rules are one per segment, the i-th carrying the i-th segment's event and the key's filters |
| RuleConfig.EventNameKeyExpands | 001-cookie-hook/js-cookie-monitor-debugger-hook.js:360-382 | a key other than `events`, `name` and `value`, with a truthy value, expands its own `|`-separated segments with that value as name filter and `rule["value"]` as value filter: exactly the valid-segment rules and the invalid-segment errors, and it never throws |
| RuleConfig.EventsKeyExpands | 001-cookie-hook/js-cookie-monitor-debugger-hook.js:356-382 | an `events` key whose value is a non-empty string, with a truthy `name`, expands that string's segments with `rule["name"]` and `rule["value"]` as filters: exactly the valid-segment rules and the invalid-segment errors, and it never throws |
| RuleConfig.NormaliseCanonical | 001-cookie-hook/js-cookie-monitor-debugger-hook.js:336-403 | every installed rule is canonical: a rule without event has a string or regular-expression name filter and no value filter, and a rule with an event has a truthy name filter |
| RuleConfig.DefaultEventsSplit | 001-cookie-hook/js-cookie-monitor-debugger-hook.js:357 | the default events string splits into `add `, ` delete ` and ` update` |
| RuleConfig.DefaultEventsExpand | 001-cookie-hook/js-cookie-monitor-debugger-hook.js:356-359 | an `events` key with a falsy value and a truthy `name` expands the three default segments, which trim to the three event names |
| RuleConfig.DefaultSegmentsInstalled | 001-cookie-hook/js-cookie-monitor-debugger-hook.js:374-382 | the three default segments install add, delete and update rules, in that order, with no error |
| RuleConfig.EventsWithoutNameRejected | 001-cookie-hook/js-cookie-monitor-debugger-hook.js:356-373 | an object whose keys are only `events` and `value`, and whose `name` is falsy, installs no rule; every error it reports is a missing name filter |
| RuleConfig.NonStringEventsThrows | 001-cookie-hook/js-cookie-monitor-debugger-hook.js:356-374 | an object entry whose `events` value is truthy but not a string, and whose `name` is truthy, makes normalising throw wherever it stands in the configuration |
| CookieMonitor.OnSetCookieAfterStartup | 001-cookie-hook/js-cookie-monitor-debugger-hook.js:336-403 | when normalising the configuration throws, every later write throws and is lost; otherwise a write reacts exactly as `OnSetCookie` under the installed rules |

## Left out

- The property shim that reinstalls itself on `document.cookie` (lines 36-52) is host DOM glue. The model starts at the call of `cc11001100_onSetCookie`.
- The write reaching the browser's cookie jar is not modelled.
- Console output is not modelled: the message building and styling of lines 79-113, 126-178, 184-210 and 386-395, and `JSON.stringify` of a rule in an error message.
  - An error is modelled by its kind and the entry it names, not by its text.
  - A `JSON.stringify` that would throw on a rule object that is cyclic or holds a `BigInt` is not modelled.
- `now()` (lines 215-218), `genFormatArray` (lines 220-226) and `getCodeLocation` (lines 228-237) only format console output. They are not modelled.
- The clock (`new Date().getTime()`) is the parameter `now`.
- Date parsing, `decodeURIComponent` and `RegExp.prototype.test` are given functions in `JsHost.Host`.
  - The `lastIndex` state of a global regular expression is not modelled.
- `toLowerCase` is modelled for ASCII letters only. The only key the parser looks up is `expires`, and that lookup is unaffected.
- The `expires` field of a snapshot pair is `undefined` in the source. Here it is `Session`, and nothing reads it.
- An object rule is the list of its own enumerable properties in `for ... in` order, each key once. A property read `rule[key]` is the first entry with that key. Inherited enumerable properties and key ordering rules are not modelled.
- Numbers, booleans and other non-object configuration values visit no keys (`Scalar`).
- CookieMonitor.OnSetCookie: takes the written value as a string. The setter (lines 44-45) passes the assigned value on unconverted, so a non-string write (`document.cookie = 42`, an object) throws a `TypeError` at `split` (line 247) and is never forwarded to the browser (lines 46-47). The browser's own setter would have stored it. Such writes are not modelled.
- CookieMonitor.OnSetCookieAfterStartup: a throw during start-up ends the whole script before `class CookiePair` (line 430) is defined, while the setter is already installed (lines 36-52). Every later write then throws a `ReferenceError` at `new CookiePair` (line 260) and is lost; the model gives `Threw` for every write in that case. The throw can come from a non-string `events` value (`RuleConfig.NonStringEventsThrows`) or from a `JSON.stringify` in an error message (lines 370, 377) of a rule object that is cyclic or holds a `BigInt`, which is not modelled.
- RuleConfig.StandardizingRules: the in-place refill of the `debuggerRules` array is modelled as the returned rules.
  - What a `TypeError` leaves in that array is not modelled. The result is only `Normalised.TypeError`.
- RuleConfig.DefaultEventsExpand: states the default expansion through the three padded segments. `RuleConfig.DefaultSegmentsInstalled` then gives the resulting rules.
- CookieMonitor.OnSetCookie: ends by reporting the event and the indices of the matched rules. The `debugger` pause itself is not modelled.
- The per-event switches and `ignoreUpdateButNotChanged` are settings. Their shipped values are `DefaultGate` and `DefaultSettings`.

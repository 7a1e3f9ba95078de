/** Parsing of one cookie write, `name=value; Attr=val; ...`, into a cookie
    pair (`parseSetCookie`). The first `;`-segment gives the name and the
    value; of the other segments only the `Expires` attribute is kept. */
module CookieParse {
  import opened JsString
  import opened JsHost
  import opened JsMap

  /** The `expires` field of a cookie pair: `null` (no usable `Expires`
      attribute, a session cookie), `NaN` (an `Expires` text the date parser
      rejects), or a time in milliseconds since the epoch. */
  datatype Expiry = Session | Unparsable | At(millis: int)

  datatype CookiePair = CookiePair(name: string, value: string, expires: Expiry)

  /** The key of an attribute segment: its text before the first `=`,
      trimmed and lower-cased. */
  function AttrKey(segment: string): string {
    LowerAscii(Trim(SplitLimit(segment, '=', 2)[0]))
  }

  /** The value of an attribute segment: its text between the first and the
      second `=`, trimmed; empty when there is no `=`. */
  function AttrValue(segment: string): string {
    var ss := SplitLimit(segment, '=', 2);
    if |ss| > 1 then Trim(ss[1]) else ""
  }

  /** The `(key, value)` entry each attribute segment contributes. */
  function AttributeEntries(segments: seq<string>): (r: seq<(string, string)>)
    ensures |r| == |segments|
    ensures forall i :: 0 <= i < |segments| ==> r[i] == (AttrKey(segments[i]), AttrValue(segments[i]))
  {
    seq(|segments|, i requires 0 <= i < |segments| => (AttrKey(segments[i]), AttrValue(segments[i])))
  }

  lemma AttributeEntriesConcat(x: seq<string>, y: seq<string>)
    ensures AttributeEntries(x + y) == AttributeEntries(x) + AttributeEntries(y)
  {
    var l, r := AttributeEntries(x + y), AttributeEntries(x) + AttributeEntries(y);
    forall i | 0 <= i < |x + y| ensures l[i] == r[i] {
      if i < |x| { assert (x + y)[i] == x[i]; } else { assert (x + y)[i] == y[i - |x|]; }
    }
  }

  /** The attribute map built from `segments` in order, a later segment
      overwriting an earlier one with the same key. */
  function Attributes(segments: seq<string>): map<string, string> {
    FromEntries(AttributeEntries(segments))
  }

  /** One more segment sets one more entry. */
  lemma AttributesStep(segments: seq<string>, i: nat)
    requires 1 <= i < |segments|
    ensures Attributes(segments[1..i + 1]) ==
            Attributes(segments[1..i])[AttrKey(segments[i]) := AttrValue(segments[i])]
  {
    var entries := AttributeEntries(segments[1..i + 1]);
    assert entries[..i - 1] == AttributeEntries(segments[1..i]);
  }

  /** The text of the retained `expires` attribute, `""` when there is none. */
  function ExpiresText(attributes: seq<string>): string {
    var m := Attributes(attributes);
    if "expires" in m then m["expires"] else ""
  }

  /** An `expires` text as the `expires` field: empty is `null`, otherwise the
      date parser's reading of it. */
  function ExpiryFromText(text: string, parseDate: string -> Option<int>): Expiry {
    if text == "" then Session
    else match parseDate(text)
      case None => Unparsable
      case Some(t) => At(t)
  }

  /** The `expires` field of the pair parsed from `cookieString`. */
  function ExpiryOf(cookieString: string, parseDate: string -> Option<int>): Expiry {
    ExpiryFromText(ExpiresText(Split(cookieString, ';')[1..]), parseDate)
  }

  /** The first segment split on `=` with limit 2: the name part and, when
      there is an `=`, the value part. */
  function NameValueParts(cookieString: string): seq<string> {
    SplitLimit(Split(cookieString, ';')[0], '=', 2)
  }

  /** The name before decoding. */
  function RawName(cookieString: string): string {
    Trim(NameValueParts(cookieString)[0])
  }

  /** The value before decoding; `None` when the first segment has no `=`. */
  function RawValue(cookieString: string): Option<string> {
    var parts := NameValueParts(cookieString);
    if |parts| > 1 then Some(Trim(parts[1])) else None
  }

  /** The cookie pair of a write, or `None` when `decodeURIComponent` throws
      on its name or on its value. A missing value is `""` and is not decoded. */
  function ParsedSetCookie(cookieString: string, host: Host): (r: Option<CookiePair>)
    ensures r.Some? <==>
      host.decode(RawName(cookieString)).Some? &&
      (RawValue(cookieString).Some? ==> host.decode(RawValue(cookieString).value).Some?)
    ensures r.Some? ==>
      && r.value.name == host.decode(RawName(cookieString)).value
      && r.value.value == (if RawValue(cookieString).None? then ""
                           else host.decode(RawValue(cookieString).value).value)
      && r.value.expires == ExpiryOf(cookieString, host.parseDate)
  {
    match host.decode(RawName(cookieString))
    case None => None
    case Some(name) =>
      var expires := ExpiryOf(cookieString, host.parseDate);
      match RawValue(cookieString)
      case None => Some(CookiePair(name, "", expires))
      case Some(raw) =>
        match host.decode(raw)
        case None => None
        case Some(value) => Some(CookiePair(name, value, expires))
  }

  /** `parseSetCookie`: split on `;`, take name and value from the first
      segment, fill the attribute map from the others in a loop, and keep the
      `expires` entry. */
  method ParseSetCookie(cookieString: string, host: Host) returns (pair: Option<CookiePair>)
    ensures pair == ParsedSetCookie(cookieString, host)
  {
    var cookieStringSplit := Split(cookieString, ';');
    var cookieNameValueArray := SplitLimit(cookieStringSplit[0], '=', 2);
    var cookieName := host.decode(Trim(cookieNameValueArray[0]));
    if cookieName.None? {
      return None;
    }
    var cookieValue := "";
    if |cookieNameValueArray| > 1 {
      var decoded := host.decode(Trim(cookieNameValueArray[1]));
      if decoded.None? {
        return None;
      }
      cookieValue := decoded.value;
    }
    var attributes: map<string, string> := map[];
    for i := 1 to |cookieStringSplit|
      invariant attributes == Attributes(cookieStringSplit[1..i])
    {
      var ss := SplitLimit(cookieStringSplit[i], '=', 2);
      var key := LowerAscii(Trim(ss[0]));
      var value := if |ss| > 1 then Trim(ss[1]) else "";
      AttributesStep(cookieStringSplit, i);
      attributes := attributes[key := value];
    }
    assert cookieStringSplit[1..|cookieStringSplit|] == cookieStringSplit[1..];
    var expires := if "expires" in attributes then attributes["expires"] else "";
    var expiry := Session;
    if expires != "" {
      var time := host.parseDate(expires);
      expiry := if time.Some? then At(time.value) else Unparsable;
    }
    pair := Some(CookiePair(cookieName.value, cookieValue, expiry));
  }

  /** Name and value when the first segment has an `=`: the name is the
      trimmed text before the first `=`, the value the trimmed text up to the
      next `=` (anything from a second `=` on is dropped), and the attributes
      after the first `;` play no part. */
  lemma NameAndValue(n: string, v: string, t: string, rest: string)
    requires '=' !in n && '=' !in v
    requires ';' !in n && ';' !in v && ';' !in t
    requires t == "" || t[0] == '='
    requires rest == "" || rest[0] == ';'
    ensures RawName(n + "=" + v + t + rest) == Trim(n)
    ensures RawValue(n + "=" + v + t + rest) == Some(Trim(v))
  {
    var first := n + "=" + v + t;
    assert Split(first + rest, ';')[0] == first by {
      FirstSegment(first, rest);
    }
    assert SplitLimit(first, '=', 2) == [n, v] by {
      NameValueSplit(n, v, t);
    }
  }

  /** Splitting `n=v...` on `=` with limit 2 gives exactly `n` and `v`. */
  lemma NameValueSplit(n: string, v: string, t: string)
    requires '=' !in n && '=' !in v
    requires t == "" || t[0] == '='
    ensures SplitLimit(n + "=" + v + t, '=', 2) == [n, v]
  {
    var first := n + "=" + v + t;
    assert first == n + ['='] + (v + t);
    SplitFirst(n, '=', v + t);
    if t == "" {
      assert v + t == v;
      SplitNone(v, '=');
    } else {
      assert v + t == v + ['='] + t[1..];
      SplitFirst(v, '=', t[1..]);
    }
  }

  /** Name and value when the first segment has no `=`: the whole segment,
      trimmed, is the name and there is no value. */
  lemma NameWithoutValue(n: string, rest: string)
    requires '=' !in n && ';' !in n
    requires rest == "" || rest[0] == ';'
    ensures RawName(n + rest) == Trim(n)
    ensures RawValue(n + rest) == None
  {
    FirstSegment(n, rest);
    SplitNone(n, '=');
  }

  /** The first `;`-segment is everything before the first `;`. */
  lemma FirstSegment(first: string, rest: string)
    requires ';' !in first
    requires rest == "" || rest[0] == ';'
    ensures Split(first + rest, ';')[0] == first
  {
    if rest == "" {
      assert first + rest == first;
      SplitNone(first, ';');
    } else {
      assert first + rest == first + [';'] + rest[1..];
      SplitFirst(first, ';', rest[1..]);
    }
  }

  /** With an `expires` attribute present, the last one decides the expiry:
      `null` when its value is empty, otherwise the parsed date. */
  lemma ExpiryFromLastExpires(cookieString: string, parseDate: string -> Option<int>, i: nat)
    requires LastWithKey(AttributeEntries(Split(cookieString, ';')[1..]), i, "expires")
    ensures ExpiryOf(cookieString, parseDate) ==
            ExpiryFromText(AttrValue(Split(cookieString, ';')[1 + i]), parseDate)
  {
    var attributes := Split(cookieString, ';')[1..];
    FromEntriesLastWins(AttributeEntries(attributes), i, "expires");
    assert attributes[i] == Split(cookieString, ';')[1 + i];
  }

  /** Without an `expires` attribute the write is a session cookie. */
  lemma ExpiryWithoutExpires(cookieString: string, parseDate: string -> Option<int>)
    requires forall i :: 1 <= i < |Split(cookieString, ';')| ==> AttrKey(Split(cookieString, ';')[i]) != "expires"
    ensures ExpiryOf(cookieString, parseDate) == Session
  {
    var attributes := Split(cookieString, ';')[1..];
    var entries := AttributeEntries(attributes);
    FromEntriesKeys(entries);
    forall j | 0 <= j < |entries| ensures entries[j].0 != "expires" {
      assert attributes[j] == Split(cookieString, ';')[j + 1];
    }
  }

  /** The expiry depends on the `expires` attributes only: neither the
      name-value segment nor an attribute with another key (`Path`,
      `Domain`, ...) changes it. */
  lemma ExpiryIgnoresOtherSegments(
    first1: string, first2: string,
    a: seq<string>, e: string, b: seq<string>,
    parseDate: string -> Option<int>)
    requires ';' !in first1 && ';' !in first2
    requires ';' !in e
    requires forall segment :: segment in a + b ==> ';' !in segment
    requires AttrKey(e) != "expires"
    ensures ExpiryOf(Join([first1] + a + [e] + b, ';'), parseDate) ==
            ExpiryOf(Join([first2] + a + b, ';'), parseDate)
  {
    var s1 := Join([first1] + a + [e] + b, ';');
    var s2 := Join([first2] + a + b, ';');
    assert Split(s1, ';')[1..] == a + [e] + b by {
      assert [first1] + a + [e] + b == [first1] + (a + [e] + b);
      SplitSegments(first1, a + [e] + b);
    }
    assert Split(s2, ';')[1..] == a + b by {
      assert [first2] + a + b == [first2] + (a + b);
      SplitSegments(first2, a + b);
    }
    ExpiresTextIgnoresOther(a, e, b);
  }

  /** Removing an attribute with another key leaves the `expires` text alone. */
  lemma ExpiresTextIgnoresOther(a: seq<string>, e: string, b: seq<string>)
    requires AttrKey(e) != "expires"
    ensures ExpiresText(a + [e] + b) == ExpiresText(a + b)
  {
    var ea, eb := AttributeEntries(a), AttributeEntries(b);
    var ee := (AttrKey(e), AttrValue(e));
    var with, without := AttributeEntries(a + [e] + b), AttributeEntries(a + b);
    var single := AttributeEntries([e]);
    assert single == [ee] by {
      assert |single| == 1 && single[0] == ee;
    }
    AttributeEntriesConcat(a, [e]);
    AttributeEntriesConcat(a + [e], b);
    assert with == ea + single + eb;
    assert without == ea + eb by {
      AttributeEntriesConcat(a, b);
    }
    OtherKeyIrrelevant(ea, ee, eb, "expires");
    assert Attributes(a + [e] + b) == FromEntries(ea + [ee] + eb);
    assert Attributes(a + b) == FromEntries(ea + eb);
  }

  /** A write assembled from `;`-free segments splits back into them. */
  lemma SplitSegments(first: string, attributes: seq<string>)
    requires ';' !in first
    requires forall segment :: segment in attributes ==> ';' !in segment
    ensures Split(Join([first] + attributes, ';'), ';')[1..] == attributes
  {
    var ps := [first] + attributes;
    SplitJoin(ps, ';');
    assert ps[1..] == attributes;
  }
}

/** Reading the current cookies into a map from name to cookie pair
    (`getCurrentCookieMap`). The text of `document.cookie` is a parameter. */
module CookieSnapshot {
  import opened JsString
  import opened JsHost
  import opened JsMap
  import opened CookieParse

  /** The name and pair of one `name=value` entry of the cookie text, or
      `None` when `decodeURIComponent` throws on its name or value. The name
      is the trimmed text before the first `=`, the value the trimmed text up
      to the next `=`; an entry without `=` has the value `""`. Snapshot pairs
      carry no expiry (the source leaves it undefined; here it is `Session`). */
  function SnapshotEntry(entry: string, decode: string -> Option<string>): Option<(string, CookiePair)> {
    var ss := SplitLimit(entry, '=', 2);
    match decode(Trim(ss[0]))
    case None => None
    case Some(key) =>
      if |ss| > 1 then
        match decode(Trim(ss[1]))
        case None => None
        case Some(value) => Some((key, CookiePair(key, value, Session)))
      else Some((key, CookiePair(key, "", Session)))
  }

  /** The decoded entries of `entries` in order, or `None` as soon as one
      of them throws. */
  function DecodedEntries(entries: seq<string>, decode: string -> Option<string>): Option<seq<(string, CookiePair)>>
    decreases |entries|
  {
    if entries == [] then Some([])
    else
      match DecodedEntries(entries[..|entries| - 1], decode)
      case None => None
      case Some(done) =>
        match SnapshotEntry(entries[|entries| - 1], decode)
        case None => None
        case Some(e) => Some(done + [e])
  }

  /** The snapshot of the cookie text `documentCookie`: empty for an empty
      text, otherwise one entry per distinct name, a later entry overwriting
      an earlier one with the same name; `None` when decoding throws. */
  function Snapshot(documentCookie: string, decode: string -> Option<string>): Option<map<string, CookiePair>> {
    if documentCookie == "" then Some(map[])
    else
      match DecodedEntries(Split(documentCookie, ';'), decode)
      case None => None
      case Some(entries) => Some(FromEntries(entries))
  }

  /** `getCurrentCookieMap`: an empty map for an empty cookie text, otherwise
      a `set` per `;`-separated entry, in order. */
  method GetCurrentCookieMap(documentCookie: string, host: Host) returns (cookieMap: Option<map<string, CookiePair>>)
    ensures cookieMap == Snapshot(documentCookie, host.decode)
  {
    if documentCookie == "" {
      return Some(map[]);
    }
    var entries := Split(documentCookie, ';');
    var m: map<string, CookiePair> := map[];
    for i := 0 to |entries|
      invariant DecodedEntries(entries[..i], host.decode).Some?
      invariant m == FromEntries(DecodedEntries(entries[..i], host.decode).value)
    {
      var ss := SplitLimit(entries[i], '=', 2);
      var key := host.decode(Trim(ss[0]));
      if key.None? {
        DecodeFailureStops(entries, i, host.decode);
        return None;
      }
      var value := Some("");
      if |ss| > 1 {
        value := host.decode(Trim(ss[1]));
        if value.None? {
          DecodeFailureStops(entries, i, host.decode);
          return None;
        }
      }
      assert entries[..i + 1][..i] == entries[..i];
      ghost var done := DecodedEntries(entries[..i], host.decode).value;
      assert FromEntries(done + [(key.value, CookiePair(key.value, value.value, Session))])
          == FromEntries(done)[key.value := CookiePair(key.value, value.value, Session)] by {
        assert (done + [(key.value, CookiePair(key.value, value.value, Session))])[..|done|] == done;
      }
      m := m[key.value := CookiePair(key.value, value.value, Session)];
    }
    assert entries[..|entries|] == entries;
    cookieMap := Some(m);
  }

  /** Once an entry throws, the whole read throws. */
  lemma DecodeFailureStops(entries: seq<string>, i: nat, decode: string -> Option<string>)
    requires i < |entries| && SnapshotEntry(entries[i], decode).None?
    ensures DecodedEntries(entries, decode).None?
  {
    DecodedEntriesThrows(entries, decode);
  }

  /** Decoding some entry of `entries` throws. */
  predicate SomeEntryThrows(entries: seq<string>, decode: string -> Option<string>) {
    exists i :: 0 <= i < |entries| && SnapshotEntry(entries[i], decode).None?
  }

  /** Decoding the entries throws exactly when one entry throws; otherwise
      there is one decoded entry per entry, in order. */
  lemma {:induction false} DecodedEntriesThrows(entries: seq<string>, decode: string -> Option<string>)
    ensures DecodedEntries(entries, decode).None? <==> SomeEntryThrows(entries, decode)
    ensures DecodedEntries(entries, decode).Some? ==>
      var decoded := DecodedEntries(entries, decode).value;
      && |decoded| == |entries|
      && forall i :: 0 <= i < |entries| ==> SnapshotEntry(entries[i], decode) == Some(decoded[i])
    decreases |entries|
  {
    if entries != [] {
      var n := |entries| - 1;
      var init := entries[..n];
      DecodedEntriesThrows(init, decode);
      forall i | 0 <= i < n ensures init[i] == entries[i] { }
      if DecodedEntries(init, decode).Some? && SnapshotEntry(entries[n], decode).Some? {
        var done := DecodedEntries(init, decode).value;
        var e := SnapshotEntry(entries[n], decode).value;
        forall i | 0 <= i < |entries| ensures SnapshotEntry(entries[i], decode) == Some((done + [e])[i]) {
          if i < n { assert entries[i] == init[i]; }
        }
      }
    }
  }

  /** The snapshot throws exactly when the text is non-empty and one of its
      entries throws. */
  lemma {:induction false} SnapshotThrows(documentCookie: string, decode: string -> Option<string>)
    ensures documentCookie == "" ==> Snapshot(documentCookie, decode) == Some(map[])
    ensures documentCookie != "" ==>
      (Snapshot(documentCookie, decode).None? <==> SomeEntryThrows(Split(documentCookie, ';'), decode))
  {
    if documentCookie != "" {
      DecodedEntriesThrows(Split(documentCookie, ';'), decode);
    }
  }

  /** Entry `i` decodes, and no later entry decodes to the same name. */
  predicate LastNamed(entries: seq<string>, i: nat, decode: string -> Option<string>) {
    && i < |entries|
    && (forall j :: 0 <= j < |entries| ==> SnapshotEntry(entries[j], decode).Some?)
    && forall j :: i < j < |entries| ==>
         SnapshotEntry(entries[j], decode).value.0 != SnapshotEntry(entries[i], decode).value.0
  }

  /** An empty cookie text gives an empty map; otherwise the snapshot has a
      key for the decoded name of every entry and no other, and each name
      maps to the pair of the last entry with that name. */
  lemma SnapshotContents(documentCookie: string, decode: string -> Option<string>, m: map<string, CookiePair>)
    requires Snapshot(documentCookie, decode) == Some(m)
    ensures documentCookie == "" ==> m == map[]
    ensures documentCookie != "" ==>
      var entries := Split(documentCookie, ';');
      && (forall i :: 0 <= i < |entries| ==> SnapshotEntry(entries[i], decode).Some?)
      && m.Keys == (set i | 0 <= i < |entries| :: SnapshotEntry(entries[i], decode).value.0)
      && (forall i :: 0 <= i < |entries| && LastNamed(entries, i, decode) ==>
            m[SnapshotEntry(entries[i], decode).value.0] == SnapshotEntry(entries[i], decode).value.1)
  {
    if documentCookie != "" {
      var entries := Split(documentCookie, ';');
      DecodedEntriesThrows(entries, decode);
      var decoded := DecodedEntries(entries, decode).value;
      FromEntriesKeys(decoded);
      assert m.Keys == (set i | 0 <= i < |entries| :: SnapshotEntry(entries[i], decode).value.0) by {
        forall i | 0 <= i < |entries| ensures SnapshotEntry(entries[i], decode).value.0 == decoded[i].0 { }
      }
      forall i | 0 <= i < |entries| && LastNamed(entries, i, decode)
        ensures m[SnapshotEntry(entries[i], decode).value.0] == SnapshotEntry(entries[i], decode).value.1
      {
        assert LastWithKey(decoded, i, decoded[i].0);
        FromEntriesLastWins(decoded, i, decoded[i].0);
      }
    }
  }

  /** An entry without `=` is a cookie with the empty value. */
  lemma EntryWithoutValue(entry: string, decode: string -> Option<string>)
    requires '=' !in entry
    requires decode(Trim(entry)).Some?
    ensures var name := decode(Trim(entry)).value;
      SnapshotEntry(entry, decode) == Some((name, CookiePair(name, "", Session)))
  {
    SplitNone(entry, '=');
  }

  /** An entry `n=v...` is the cookie named by decoding the trimmed `n`,
      whose value is the decoded trimmed `v`; text from a second `=` on is
      dropped. */
  lemma EntryWithValue(n: string, v: string, t: string, decode: string -> Option<string>)
    requires '=' !in n && '=' !in v
    requires t == "" || t[0] == '='
    requires decode(Trim(n)).Some? && decode(Trim(v)).Some?
    ensures var name := decode(Trim(n)).value;
      SnapshotEntry(n + "=" + v + t, decode) == Some((name, CookiePair(name, decode(Trim(v)).value, Session)))
  {
    NameValueSplit(n, v, t);
  }
}

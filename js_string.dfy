/** The ECMAScript string primitives the hook relies on: `split` with a
    one-character separator and an optional limit, `join`, `trim`, and the
    lower-casing of an attribute key. */
module JsString {

  /** The WhiteSpace and LineTerminator code points that `String.prototype.trim` strips. */
  predicate IsWhitespace(c: char) {
    || c == '\t' || c == '\n' || c == '\U{000B}' || c == '\U{000C}' || c == '\r' || c == ' '
    || c == '\U{00A0}' || c == '\U{1680}' || ('\U{2000}' <= c <= '\U{200A}')
    || c == '\U{2028}' || c == '\U{2029}' || c == '\U{202F}' || c == '\U{205F}'
    || c == '\U{3000}' || c == '\U{FEFF}'
  }

  /** `s` with its leading white space removed. */
  function TrimStart(s: string): string {
    if s != [] && IsWhitespace(s[0]) then TrimStart(s[1..]) else s
  }

  /** `s` with its trailing white space removed. */
  function TrimEnd(s: string): string {
    if s != [] && IsWhitespace(s[|s| - 1]) then TrimEnd(s[..|s| - 1]) else s
  }

  /** TrimStart leaves a suffix of `s` that starts with a non-white
      character, preceded only by white space. */
  lemma {:induction false} TrimStartSuffix(s: string)
    ensures var r := TrimStart(s);
      && |r| <= |s| && r == s[|s| - |r|..]
      && (forall i :: 0 <= i < |s| - |r| ==> IsWhitespace(s[i]))
      && (r == [] || !IsWhitespace(r[0]))
  {
    if s != [] && IsWhitespace(s[0]) {
      var t := s[1..];
      TrimStartSuffix(t);
      var r := TrimStart(t);
      assert TrimStart(s) == r;
      assert s[|s| - |r|..] == t[|t| - |r|..];
      forall i | 0 <= i < |s| - |r| ensures IsWhitespace(s[i]) {
        if i > 0 { assert s[i] == t[i - 1]; }
      }
    }
  }

  /** TrimEnd leaves a prefix of `s` that ends with a non-white character,
      followed only by white space. */
  lemma {:induction false} TrimEndPrefix(s: string)
    ensures var r := TrimEnd(s);
      && |r| <= |s| && r == s[..|r|]
      && (forall i :: |r| <= i < |s| ==> IsWhitespace(s[i]))
      && (r == [] || !IsWhitespace(r[|r| - 1]))
  {
    if s != [] && IsWhitespace(s[|s| - 1]) {
      var t := s[..|s| - 1];
      TrimEndPrefix(t);
      var r := TrimEnd(t);
      assert TrimEnd(s) == r;
      assert s[..|r|] == t[..|r|];
      forall i | |r| <= i < |s| ensures IsWhitespace(s[i]) {
        if i < |s| - 1 { assert s[i] == t[i]; }
      }
    }
  }

  /** `String.prototype.trim`. */
  function Trim(s: string): string {
    TrimEnd(TrimStart(s))
  }

  /** `s` neither starts nor ends with white space. */
  predicate Trimmed(s: string) {
    s == [] || (!IsWhitespace(s[0]) && !IsWhitespace(s[|s| - 1]))
  }

  predicate AllWhitespace(s: string) {
    forall i :: 0 <= i < |s| ==> IsWhitespace(s[i])
  }

  /** Trim removes exactly the white space around a trimmed core. */
  lemma TrimAround(before: string, core: string, after: string)
    requires AllWhitespace(before) && AllWhitespace(after) && Trimmed(core)
    ensures Trim(before + core + after) == core
  {
    var s := before + core + after;
    var t := TrimStart(s);
    TrimStartSuffix(s);
    if core == [] {
      assert AllWhitespace(s);
      assert t == [];
    } else {
      assert s[|before|] == core[0];
      assert |t| == |core| + |after|;
      assert t == core + after;
      TrimEndPrefix(t);
      var u := TrimEnd(t);
      assert t[|core| - 1] == core[|core| - 1];
      assert |u| == |core|;
    }
  }

  /** Trimming twice is trimming once. */
  lemma TrimIdempotent(s: string)
    ensures Trimmed(Trim(s)) && Trim(Trim(s)) == Trim(s)
  {
    var ts := TrimStart(s);
    var t := TrimEnd(ts);
    TrimStartSuffix(s);
    TrimEndPrefix(ts);
    assert Trimmed(t) by {
      if t != [] {
        assert t[0] == ts[0];
      }
    }
    assert TrimStart(t) == t;
    assert TrimEnd(t) == t;
  }

  /** `Array.prototype.join(sep)`. */
  function Join(pieces: seq<string>, sep: char): string
    decreases |pieces|
  {
    if |pieces| == 0 then ""
    else if |pieces| == 1 then pieces[0]
    else pieces[0] + [sep] + Join(pieces[1..], sep)
  }

  /** `s.split(sep)` for a one-character separator. */
  function Split(s: string, sep: char): (r: seq<string>)
    ensures |r| >= 1
    decreases |s|
  {
    if |s| == 0 then [""]
    else
      var rest := Split(s[1..], sep);
      if s[0] == sep then [""] + rest else [[s[0]] + rest[0]] + rest[1..]
  }

  /** `s.split(sep, limit)`: the pieces of `s.split(sep)`, truncated to the first `limit`. */
  function SplitLimit(s: string, sep: char, limit: nat): (r: seq<string>)
    ensures |r| <= limit
  {
    var parts := Split(s, sep);
    if |parts| <= limit then parts else parts[..limit]
  }

  /** The pieces of a split are free of the separator, and joining them back
      with it gives the original string. */
  lemma {:induction false} SplitPieces(s: string, sep: char)
    ensures forall piece :: piece in Split(s, sep) ==> sep !in piece
    ensures Join(Split(s, sep), sep) == s
    decreases |s|
  {
    if |s| > 0 {
      var rest := Split(s[1..], sep);
      SplitPieces(s[1..], sep);
      assert s == [s[0]] + s[1..];
      if s[0] == sep {
        assert ([""] + rest)[1..] == rest;
      } else {
        var r := [[s[0]] + rest[0]] + rest[1..];
        assert r[1..] == rest[1..];
        assert rest[0] in rest;
        assert forall piece :: piece in rest[1..] ==> piece in rest;
        assert Join(r, sep) == [s[0]] + Join(rest, sep);
      }
    }
  }

  /** Split undoes Join: pieces free of the separator come back unchanged. */
  lemma {:induction false} SplitJoin(pieces: seq<string>, sep: char)
    requires |pieces| >= 1
    requires forall piece :: piece in pieces ==> sep !in piece
    ensures Split(Join(pieces, sep), sep) == pieces
    decreases |pieces|, |pieces[0]|
  {
    var p := pieces[0];
    assert p in pieces;
    if p != [] {
      assert p == [p[0]] + p[1..];
    }
    if |pieces| == 1 {
      if p != [] {
        var tail := [p[1..]];
        SplitJoin(tail, sep);
        assert Join(tail, sep) == p[1..];
        assert p[1..] == Join(pieces, sep)[1..];
      }
    } else if p == [] {
      SplitJoin(pieces[1..], sep);
      assert Join(pieces, sep)[1..] == Join(pieces[1..], sep);
      assert pieces == [""] + pieces[1..];
    } else {
      var shorter := [p[1..]] + pieces[1..];
      assert forall piece :: piece in pieces[1..] ==> piece in pieces;
      SplitJoin(shorter, sep);
      assert shorter[1..] == pieces[1..];
      assert Join(pieces, sep)[1..] == Join(shorter, sep);
      assert p == [p[0]] + p[1..];
      assert pieces == [p] + pieces[1..];
    }
  }

  /** The first piece of a split is everything before the first separator. */
  lemma SplitFirst(a: string, sep: char, rest: string)
    requires sep !in a
    ensures Split(a + [sep] + rest, sep) == [a] + Split(rest, sep)
  {
    var ps := [a] + Split(rest, sep);
    SplitPieces(rest, sep);
    assert ps[1..] == Split(rest, sep);
    assert Join(ps, sep) == a + [sep] + rest;
    SplitJoin(ps, sep);
  }

  /** A string without the separator splits into itself alone. */
  lemma SplitNone(a: string, sep: char)
    requires sep !in a
    ensures Split(a, sep) == [a]
  {
    SplitJoin([a], sep);
  }

  /** Lower-case of one character; only the ASCII letters change. */
  function LowerChar(c: char): char {
    if 'A' <= c <= 'Z' then (c as int + 32) as char else c
  }

  /** `toLowerCase`, restricted to the ASCII letters. */
  function LowerAscii(s: string): string {
    seq(|s|, i requires 0 <= i < |s| => LowerChar(s[i]))
  }
}

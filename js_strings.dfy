/** The JavaScript string built-ins the allow-list is built with:
    `String.prototype.split` on a one-character separator, `String.prototype.trim`,
    and `Array.prototype.join` as the inverse of `split`. */
module JsStrings {

  /** The characters `trim` removes: ECMAScript WhiteSpace and LineTerminator. */
  predicate IsJsWhitespace(c: char) {
    c == '\U{0009}' || c == '\U{000A}' || c == '\U{000B}' || c == '\U{000C}' || c == '\U{000D}'
    || c == '\U{0020}' || c == '\U{00A0}' || c == '\U{1680}'
    || ('\U{2000}' <= c <= '\U{200A}')
    || c == '\U{2028}' || c == '\U{2029}' || c == '\U{202F}' || c == '\U{205F}'
    || c == '\U{3000}' || c == '\U{FEFF}'
  }

  /** A string with no whitespace at either end. */
  predicate Trimmed(s: string) {
    s == [] || (!IsJsWhitespace(s[0]) && !IsJsWhitespace(s[|s| - 1]))
  }

  /** `s.trimStart()`: the longest suffix of `s` whose dropped prefix is all whitespace. */
  function TrimStart(s: string): (r: string)
    ensures |r| <= |s| && r == s[|s| - |r|..]
    ensures forall i | 0 <= i < |s| - |r| :: IsJsWhitespace(s[i])
    ensures r == [] || !IsJsWhitespace(r[0])
    decreases |s|
  {
    if s != [] && IsJsWhitespace(s[0]) then TrimStart(s[1..]) else s
  }

  /** `s.trimEnd()`: the longest prefix of `s` whose dropped suffix is all whitespace. */
  function TrimEnd(s: string): (r: string)
    ensures |r| <= |s| && r == s[..|r|]
    ensures forall i | |r| <= i < |s| :: IsJsWhitespace(s[i])
    ensures r == [] || !IsJsWhitespace(r[|r| - 1])
    decreases |s|
  {
    if s != [] && IsJsWhitespace(s[|s| - 1]) then TrimEnd(s[..|s| - 1]) else s
  }

  /** `s.trim()` */
  function Trim(s: string): string {
    TrimEnd(TrimStart(s))
  }

  /** `trim` yields a middle slice of its argument, everything it cuts off is
      whitespace, and what it keeps starts and ends with a non-whitespace character. */
  lemma TrimSlice(s: string)
    ensures var t := Trim(s);
      exists i, j :: 0 <= i <= j <= |s| && t == s[i..j]
        && (forall k | 0 <= k < i :: IsJsWhitespace(s[k]))
        && (forall k | j <= k < |s| :: IsJsWhitespace(s[k]))
    ensures Trimmed(Trim(s))
  {
    var u := TrimStart(s);
    var i := |s| - |u|;
    var j := i + |Trim(s)|;
    SliceOfSuffix(s, u, TrimEnd(u));
    assert Trim(s) == s[i..j];
    TrimmedTrim(s);
  }

  /** Cutting a whitespace tail off a suffix `u` of `s` leaves a slice of `s`
      whose own tail in `s` is that whitespace. */
  lemma SliceOfSuffix(s: string, u: string, t: string)
    requires |u| <= |s| && u == s[|s| - |u|..]
    requires |t| <= |u| && t == u[..|t|]
    requires forall k | |t| <= k < |u| :: IsJsWhitespace(u[k])
    ensures t == s[|s| - |u|..|s| - |u| + |t|]
    ensures forall k | |s| - |u| + |t| <= k < |s| :: IsJsWhitespace(s[k])
  {
    var i := |s| - |u|;
    forall k | i + |t| <= k < |s| ensures IsJsWhitespace(s[k]) {
      assert s[k] == u[k - i];
    }
  }

  /** What `trim` keeps starts and ends with a non-whitespace character. */
  lemma TrimmedTrim(s: string)
    ensures Trimmed(Trim(s))
  {
    var u := TrimStart(s);
    var t := TrimEnd(u);
    if t != [] {
      assert t[0] == u[0];
    }
  }

  /** A string that is already trimmed is left alone. */
  lemma {:induction false} TrimOfTrimmed(s: string)
    requires Trimmed(s)
    ensures Trim(s) == s
  {
  }

  /** `trim` is idempotent. */
  lemma TrimIdempotent(s: string)
    ensures Trim(Trim(s)) == Trim(s)
  {
    TrimSlice(s);
    TrimOfTrimmed(Trim(s));
  }

  /** `s.split(sep)` for a one-character separator: the pieces between
      separators, in order; the empty string splits into one empty piece. */
  function Split(s: string, sep: char): (parts: seq<string>)
    ensures |parts| >= 1
    decreases |s|
  {
    if s == [] then [[]]
    else
      var rest := Split(s[1..], sep);
      if s[0] == sep then [[]] + rest
      else [[s[0]] + rest[0]] + rest[1..]
  }

  /** `parts.join(sep)` */
  function Join(parts: seq<string>, sep: char): string
    decreases |parts|
  {
    if parts == [] then []
    else if |parts| == 1 then parts[0]
    else parts[0] + [sep] + Join(parts[1..], sep)
  }

  /** No piece of a split contains the separator. */
  lemma {:induction false} SplitPiecesExcludeSeparator(s: string, sep: char)
    ensures forall k | 0 <= k < |Split(s, sep)| :: sep !in Split(s, sep)[k]
    decreases |s|
  {
    if s != [] {
      SplitPiecesExcludeSeparator(s[1..], sep);
    }
  }

  /** Joining the pieces of a split with the same separator gives back the string. */
  lemma {:induction false} JoinSplit(s: string, sep: char)
    ensures Join(Split(s, sep), sep) == s
    decreases |s|
  {
    if s != [] {
      var rest := Split(s[1..], sep);
      JoinSplit(s[1..], sep);
      if s[0] == sep {
        assert Split(s, sep) == [[]] + rest;
        assert Join([[]] + rest, sep) == [] + [sep] + Join(rest, sep);
      } else {
        var parts := [[s[0]] + rest[0]] + rest[1..];
        if |rest| == 1 {
          assert Join(parts, sep) == [s[0]] + rest[0];
        } else {
          assert parts[1..] == rest[1..];
          assert Join(rest, sep) == rest[0] + [sep] + Join(rest[1..], sep);
          assert Join(parts, sep) == [s[0]] + rest[0] + [sep] + Join(rest[1..], sep);
        }
        assert s == [s[0]] + s[1..];
      }
    }
  }

  /** Splitting a join of separator-free pieces gives back the pieces. */
  lemma {:induction false} SplitJoin(parts: seq<string>, sep: char)
    requires |parts| >= 1
    requires forall k | 0 <= k < |parts| :: sep !in parts[k]
    ensures Split(Join(parts, sep), sep) == parts
    decreases |parts|, |parts[0]|
  {
    var p := parts[0];
    if p == [] {
      if |parts| > 1 {
        SplitJoin(parts[1..], sep);
        SplitJoinEmptyHead(parts, sep);
      }
    } else {
      var tail := [p[1..]] + parts[1..];
      forall k | 0 <= k < |tail| ensures sep !in tail[k] {
        if k == 0 {
          assert forall c | c in p[1..] :: c in p;
        } else {
          assert tail[k] == parts[k];
        }
      }
      SplitJoin(tail, sep);
      SplitJoinFirstChar(parts, sep, tail);
    }
  }

  /** The step of `SplitJoin` for an empty first piece: the join starts with the separator. */
  lemma SplitJoinEmptyHead(parts: seq<string>, sep: char)
    requires |parts| > 1 && parts[0] == []
    requires Split(Join(parts[1..], sep), sep) == parts[1..]
    ensures Split(Join(parts, sep), sep) == parts
  {
    var s := Join(parts, sep);
    assert s == [sep] + Join(parts[1..], sep);
    assert s[1..] == Join(parts[1..], sep);
    assert parts == [[]] + parts[1..];
  }

  /** The step of `SplitJoin` for a non-empty first piece `p`: the join starts
      with `p[0]`, followed by the join of `p[1..]` and the remaining pieces. */
  lemma SplitJoinFirstChar(parts: seq<string>, sep: char, tail: seq<string>)
    requires |parts| >= 1 && parts[0] != [] && parts[0][0] != sep
    requires tail == [parts[0][1..]] + parts[1..]
    requires Split(Join(tail, sep), sep) == tail
    ensures Split(Join(parts, sep), sep) == parts
  {
    var p := parts[0];
    JoinFirstChar(parts, sep, tail);
    var s := Join(parts, sep);
    SplitFirstChar(s, sep, tail);
    assert p == [p[0]] + p[1..];
    assert parts == [[p[0]] + tail[0]] + tail[1..];
  }

  /** A join whose first piece `p` is non-empty starts with `p[0]` and goes on
      with the join of `p[1..]` and the other pieces. */
  lemma JoinFirstChar(parts: seq<string>, sep: char, tail: seq<string>)
    requires |parts| >= 1 && parts[0] != []
    requires tail == [parts[0][1..]] + parts[1..]
    ensures Join(parts, sep) != []
    ensures Join(parts, sep)[0] == parts[0][0]
    ensures Join(parts, sep)[1..] == Join(tail, sep)
  {
    var p := parts[0];
    if |parts| > 1 {
      var rest := [sep] + Join(parts[1..], sep);
      assert tail[0] == p[1..] && tail[1..] == parts[1..];
      JoinCons(parts, sep);
      JoinCons(tail, sep);
      DropHead(p, rest);
    }
  }

  /** A join of two or more pieces is the first piece, the separator, and the
      join of the others. */
  lemma JoinCons(parts: seq<string>, sep: char)
    requires |parts| > 1
    ensures Join(parts, sep) == parts[0] + ([sep] + Join(parts[1..], sep))
  {
  }

  lemma DropHead<T>(a: seq<T>, b: seq<T>)
    requires a != []
    ensures (a + b)[0] == a[0]
    ensures (a + b)[1..] == a[1..] + b
  {
  }

  /** `split` of a string starting with a non-separator puts that character in
      front of the first piece of the rest. */
  lemma SplitFirstChar(s: string, sep: char, rest: seq<string>)
    requires s != [] && s[0] != sep
    requires Split(s[1..], sep) == rest
    ensures Split(s, sep) == [[s[0]] + rest[0]] + rest[1..]
  {
  }
}

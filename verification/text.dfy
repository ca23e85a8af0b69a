/** The Python `str` operations the modelled code relies on, over `string`
    (a sequence of Unicode scalar values): whitespace stripping, prefix and
    suffix tests, `find`, `split` on one character, `join`, backslash
    escaping of selected characters and ASCII lower-casing. */
module Text {

  /** Python's `str.isspace()` for one character. */
  predicate IsSpace(c: char) {
    || c == ' '
    || '\t' <= c <= '\r'
    || '\U{1C}' <= c <= '\U{1F}'
    || c == '\U{85}' || c == '\U{A0}' || c == '\U{1680}'
    || '\U{2000}' <= c <= '\U{200A}'
    || c == '\U{2028}' || c == '\U{2029}' || c == '\U{202F}'
    || c == '\U{205F}' || c == '\U{3000}'
  }

  /** Neither end of `s` is whitespace. */
  predicate Trimmed(s: string) {
    |s| == 0 || (!IsSpace(s[0]) && !IsSpace(s[|s| - 1]))
  }

  /** Number of whitespace characters at the front of `s`. */
  function LeadingSpaces(s: string): (n: nat)
    ensures n <= |s|
    ensures forall i :: 0 <= i < n ==> IsSpace(s[i])
    ensures n < |s| ==> !IsSpace(s[n])
  {
    if |s| > 0 && IsSpace(s[0]) then 1 + LeadingSpaces(s[1..]) else 0
  }

  /** Python's `s.rstrip()`: `s` without its trailing whitespace. */
  function RStrip(s: string): (r: string)
    ensures |r| <= |s| && r == s[..|r|]
    ensures forall i :: |r| <= i < |s| ==> IsSpace(s[i])
    ensures |r| == 0 || !IsSpace(r[|r| - 1])
  {
    if |s| > 0 && IsSpace(s[|s| - 1]) then RStrip(s[..|s| - 1]) else s
  }

  /** Python's `s.strip()`: the slice of `s` left after removing whitespace
      from both ends. */
  function Strip(s: string): (r: string)
    ensures Trimmed(r)
    ensures LeadingSpaces(s) + |r| <= |s|
    ensures r == s[LeadingSpaces(s)..LeadingSpaces(s) + |r|]
    ensures forall i :: LeadingSpaces(s) + |r| <= i < |s| ==> IsSpace(s[i])
  {
    var n := LeadingSpaces(s);
    var r := RStrip(s[n..]);
    assert |r| > 0 ==> r[0] == s[n];
    r
  }

  /** Stripping a string that has no whitespace at either end changes nothing;
      in particular stripping is idempotent. */
  lemma StripTrimmed(s: string)
    requires Trimmed(s)
    ensures Strip(s) == s
  {
    assert LeadingSpaces(s) == 0;
  }

  /** Stripping adds no character. */
  lemma StripKeepsOut(s: string, c: char)
    requires c !in s
    ensures c !in Strip(s)
  {
    var n := LeadingSpaces(s);
    var r := Strip(s);
    forall k | 0 <= k < |r|
      ensures r[k] != c
    {
      assert r[k] == s[n + k];
    }
  }

  /** Python's `s.rstrip(c)` for one character `c`. */
  function RStripChar(s: string, c: char): (r: string)
    ensures |r| <= |s| && r == s[..|r|]
    ensures forall i :: |r| <= i < |s| ==> s[i] == c
    ensures |r| == 0 || r[|r| - 1] != c
  {
    if |s| > 0 && s[|s| - 1] == c then RStripChar(s[..|s| - 1], c) else s
  }

  /** Python's `s.startswith(prefix)`. */
  predicate StartsWith(s: string, prefix: string) {
    |prefix| <= |s| && s[..|prefix|] == prefix
  }

  /** Python's `s.endswith(suffix)`. */
  predicate EndsWith(s: string, suffix: string) {
    |suffix| <= |s| && s[|s| - |suffix|..] == suffix
  }

  /** `sub` occurs in `s` starting at index `i`. */
  predicate OccursAt(s: string, sub: string, i: int) {
    0 <= i && i + |sub| <= |s| && s[i..i + |sub|] == sub
  }

  /** Python's `s.find(sub)`: the lowest index at which `sub` occurs, or -1. */
  function Find(s: string, sub: string): (r: int)
    ensures -1 <= r
    ensures r >= 0 ==> OccursAt(s, sub, r)
    ensures forall i :: 0 <= i && (r == -1 || i < r) ==> !OccursAt(s, sub, i)
  {
    FindFrom(s, sub, 0)
  }

  function FindFrom(s: string, sub: string, start: nat): (r: int)
    requires forall i :: 0 <= i < start ==> !OccursAt(s, sub, i)
    ensures r == -1 || start <= r
    ensures r >= 0 ==> OccursAt(s, sub, r)
    ensures forall i :: 0 <= i && (r == -1 || i < r) ==> !OccursAt(s, sub, i)
    decreases |s| + 1 - start
  {
    if start + |sub| > |s| then -1
    else if s[start..start + |sub|] == sub then start
    else FindFrom(s, sub, start + 1)
  }

  /** `s.find(sub)` is 0 exactly when `s` starts with `sub`. */
  lemma FindZeroIffStartsWith(s: string, sub: string)
    ensures Find(s, sub) == 0 <==> StartsWith(s, sub)
  {
    if StartsWith(s, sub) {
      assert OccursAt(s, sub, 0);
    }
  }

  /** Python's `sep.join(parts)`. */
  function Join(parts: seq<string>, sep: string): string
  {
    if |parts| == 0 then ""
    else if |parts| == 1 then parts[0]
    else parts[0] + sep + Join(parts[1..], sep)
  }

  /** Python's `s.split(sep)` for a one-character separator: the pieces
      between separators, none containing it, that join back to `s`. */
  function Split(s: string, sep: char): (r: seq<string>)
    ensures |r| >= 1
    ensures forall i :: 0 <= i < |r| ==> sep !in r[i]
    ensures Join(r, [sep]) == s
    decreases |s|
  {
    if |s| == 0 then [""]
    else
      var rest := Split(s[1..], sep);
      if s[0] == sep then
        assert ([""] + rest)[1..] == rest;
        [""] + rest
      else
        var r := [[s[0]] + rest[0]] + rest[1..];
        assert r[1..] == rest[1..];
        assert s == [s[0]] + s[1..];
        r
  }

  lemma {:induction false} SplitNoSep(a: string, sep: char)
    requires sep !in a
    ensures Split(a, sep) == [a]
    decreases |a|
  {
    if |a| > 0 {
      SplitNoSep(a[1..], sep);
      assert [a[0]] + a[1..] == a;
    }
  }

  lemma {:induction false} SplitAfterSep(a: string, b: string, sep: char)
    requires sep !in a
    ensures Split(a + [sep] + b, sep) == [a] + Split(b, sep)
    decreases |a|
  {
    var s := a + [sep] + b;
    if |a| == 0 {
      assert s[1..] == b;
    } else {
      assert s[1..] == a[1..] + [sep] + b;
      SplitAfterSep(a[1..], b, sep);
      assert [a[0]] + a[1..] == a;
    }
  }

  /** `split` undoes `join` when no part contains the separator. */
  lemma {:induction false} SplitJoin(parts: seq<string>, sep: char)
    requires |parts| >= 1
    requires forall i :: 0 <= i < |parts| ==> sep !in parts[i]
    ensures Split(Join(parts, [sep]), sep) == parts
  {
    if |parts| == 1 {
      SplitNoSep(parts[0], sep);
    } else {
      SplitJoin(parts[1..], sep);
      SplitAfterSep(parts[0], Join(parts[1..], [sep]), sep);
      assert [parts[0]] + parts[1..] == parts;
    }
  }

  /** Joining one more part appends the separator and that part. */
  lemma {:induction false} JoinSnoc(parts: seq<string>, x: string, sep: string)
    requires |parts| >= 1
    ensures Join(parts + [x], sep) == Join(parts, sep) + sep + x
    decreases |parts|
  {
    assert (parts + [x])[1..] == parts[1..] + [x];
    if |parts| > 1 {
      JoinSnoc(parts[1..], x, sep);
    }
  }

  /** `split` yields one more piece than there are separators. */
  lemma {:induction false} SplitCount(s: string, sep: char)
    ensures |Split(s, sep)| == CountIn(s, {sep}) + 1
    decreases |s|
  {
    if |s| > 0 {
      SplitCount(s[1..], sep);
    }
  }

  /** Index in `Join(parts, sep)` at which `parts[i]` starts. */
  function PartOffset(parts: seq<string>, sep: string, i: nat): nat
    requires i <= |parts|
  {
    if i == 0 then 0 else PartOffset(parts, sep, i - 1) + |parts[i - 1]| + |sep|
  }

  /** Every part appears verbatim in the joined string, at its offset, and is
      followed by the separator unless it is the last part. */
  lemma {:induction false} JoinContents(parts: seq<string>, sep: string, i: nat)
    requires i < |parts|
    ensures PartOffset(parts, sep, i) + |parts[i]| <= |Join(parts, sep)|
    ensures Join(parts, sep)[PartOffset(parts, sep, i)..PartOffset(parts, sep, i) + |parts[i]|] == parts[i]
    ensures i + 1 < |parts| ==> PartOffset(parts, sep, i + 1) <= |Join(parts, sep)|
    ensures i + 1 < |parts| ==>
      Join(parts, sep)[PartOffset(parts, sep, i) + |parts[i]|..PartOffset(parts, sep, i + 1)] == sep
    decreases |parts|
  {
    if i == 0 {
      JoinContentsFirst(parts, sep);
    } else {
      JoinContents(parts[1..], sep, i - 1);
      JoinContentsShift(parts, sep, i);
    }
  }

  /** `JoinContents` for the first part. */
  lemma JoinContentsFirst(parts: seq<string>, sep: string)
    requires 0 < |parts|
    ensures PartOffset(parts, sep, 0) + |parts[0]| <= |Join(parts, sep)|
    ensures Join(parts, sep)[PartOffset(parts, sep, 0)..PartOffset(parts, sep, 0) + |parts[0]|] == parts[0]
    ensures 1 < |parts| ==> PartOffset(parts, sep, 1) <= |Join(parts, sep)|
    ensures 1 < |parts| ==>
      Join(parts, sep)[PartOffset(parts, sep, 0) + |parts[0]|..PartOffset(parts, sep, 1)] == sep
  {
    assert PartOffset(parts, sep, 0) == 0;
    if 1 < |parts| {
      JoinUnfold(parts, sep);
      assert PartOffset(parts, sep, 1) == |parts[0]| + |sep|;
      var x, y := parts[0] + sep, Join(parts[1..], sep);
      assert (x + y)[..|x|] == x;
      assert (x + y)[0..|parts[0]|] == parts[0];
    }
  }

  /** `JoinContents` for part `i` follows from it for part `i - 1` of the
      tail. */
  lemma JoinContentsShift(parts: seq<string>, sep: string, i: nat)
    requires 0 < i < |parts|
    requires var tail := parts[1..];
      && PartOffset(tail, sep, i - 1) + |tail[i - 1]| <= |Join(tail, sep)|
      && Join(tail, sep)[PartOffset(tail, sep, i - 1)..PartOffset(tail, sep, i - 1) + |tail[i - 1]|] == tail[i - 1]
      && (i < |tail| ==> PartOffset(tail, sep, i) <= |Join(tail, sep)|)
      && (i < |tail| ==>
        Join(tail, sep)[PartOffset(tail, sep, i - 1) + |tail[i - 1]|..PartOffset(tail, sep, i)] == sep)
    ensures PartOffset(parts, sep, i) + |parts[i]| <= |Join(parts, sep)|
    ensures Join(parts, sep)[PartOffset(parts, sep, i)..PartOffset(parts, sep, i) + |parts[i]|] == parts[i]
    ensures i + 1 < |parts| ==> PartOffset(parts, sep, i + 1) <= |Join(parts, sep)|
    ensures i + 1 < |parts| ==>
      Join(parts, sep)[PartOffset(parts, sep, i) + |parts[i]|..PartOffset(parts, sep, i + 1)] == sep
  {
    var tail := parts[1..];
    JoinUnfold(parts, sep);
    PartOffsetShift(parts, sep, i);
    var pre, jt := parts[0] + sep, Join(tail, sep);
    var o := PartOffset(tail, sep, i - 1);
    assert parts[i] == tail[i - 1];
    SliceAfter(pre, jt, o, o + |parts[i]|);
    if i + 1 < |parts| {
      PartOffsetShift(parts, sep, i + 1);
      SliceAfter(pre, jt, o + |parts[i]|, PartOffset(tail, sep, i));
    }
  }

  /** One unfolding of `Join` with at least two parts. */
  lemma JoinUnfold(parts: seq<string>, sep: string)
    requires 0 < |parts|
    ensures 1 < |parts| ==> Join(parts, sep) == parts[0] + sep + Join(parts[1..], sep)
    ensures |parts| == 1 ==> Join(parts, sep) == parts[0]
  {
  }

  /** A slice of the second half of a concatenation. */
  lemma SliceAfter(x: string, y: string, a: nat, b: nat)
    requires a <= b <= |y|
    ensures (x + y)[|x| + a..|x| + b] == y[a..b]
  {
  }

  lemma {:induction false} PartOffsetShift(parts: seq<string>, sep: string, i: nat)
    requires 1 <= i <= |parts|
    ensures PartOffset(parts, sep, i) == |parts[0]| + |sep| + PartOffset(parts[1..], sep, i - 1)
  {
    if i > 1 {
      PartOffsetShift(parts, sep, i - 1);
    }
  }

  /** The joined string ends with its last part: its length is that part's
      offset plus that part's length, so nothing follows the last part. */
  lemma {:induction false} JoinLength(parts: seq<string>, sep: string)
    requires |parts| >= 1
    ensures |Join(parts, sep)| == PartOffset(parts, sep, |parts| - 1) + |parts[|parts| - 1]|
    decreases |parts|
  {
    if |parts| > 1 {
      JoinLength(parts[1..], sep);
      PartOffsetShift(parts, sep, |parts| - 1);
      assert parts[1..][|parts| - 2] == parts[|parts| - 1];
    }
  }

  /** `JoinContents` and `JoinLength` together, for a string known to be the
      join: part `i` at its offset, then the separator or the end. */
  lemma JoinLayout(parts: seq<string>, sep: string, r: string, i: nat)
    requires i < |parts| && r == Join(parts, sep)
    ensures var at := PartOffset(parts, sep, i);
            && at + |parts[i]| <= |r|
            && r[at..at + |parts[i]|] == parts[i]
            && (i + 1 < |parts| ==>
                  PartOffset(parts, sep, i + 1) <= |r|
                  && r[at + |parts[i]|..PartOffset(parts, sep, i + 1)] == sep)
            && (i + 1 == |parts| ==> |r| == at + |parts[i]|)
  {
    JoinContents(parts, sep, i);
    JoinLength(parts, sep);
  }

  /** Replaces every character of `special` by a backslash followed by it, as
      `re.sub(r"([...])", r"\\\1", s)` and `s.replace("$", r"\$")` do. */
  function Escape(s: string, special: set<char>): (r: string)
    requires '\\' !in special
    ensures |r| >= |s|
    ensures forall i :: 0 <= i < |r| && r[i] in special ==> 0 < i && r[i - 1] == '\\'
  {
    if |s| == 0 then ""
    else (if s[0] in special then ['\\', s[0]] else [s[0]]) + Escape(s[1..], special)
  }

  /** Drops the backslash in front of every character of `special`. */
  function Unescape(s: string, special: set<char>): string
    decreases |s|
  {
    if |s| == 0 then ""
    else if |s| >= 2 && s[0] == '\\' && s[1] in special then [s[1]] + Unescape(s[2..], special)
    else [s[0]] + Unescape(s[1..], special)
  }

  /** Escaping loses nothing: removing the inserted backslashes gives the
      input back. */
  lemma {:induction false} UnescapeEscape(s: string, special: set<char>)
    requires '\\' !in special
    ensures Unescape(Escape(s, special), special) == s
    decreases |s|
  {
    if |s| > 0 {
      var e, rest := Escape(s, special), Escape(s[1..], special);
      UnescapeEscape(s[1..], special);
      assert |rest| > 0 ==> rest[0] !in special;
      if s[0] in special {
        assert e == ['\\', s[0]] + rest;
        assert e[2..] == rest;
        assert Unescape(e, special) == [s[0]] + Unescape(rest, special);
      } else {
        assert e == [s[0]] + rest;
        assert e[1..] == rest;
        assert !(|e| >= 2 && e[0] == '\\' && e[1] in special);
        assert Unescape(e, special) == [s[0]] + Unescape(rest, special);
      }
      assert [s[0]] + s[1..] == s;
    }
  }

  /** Number of characters of `s` that belong to `special`. */
  function CountIn(s: string, special: set<char>): nat
  {
    if |s| == 0 then 0 else (if s[0] in special then 1 else 0) + CountIn(s[1..], special)
  }

  /** Escaping inserts exactly one backslash per special character. */
  lemma {:induction false} EscapeLength(s: string, special: set<char>)
    requires '\\' !in special
    ensures |Escape(s, special)| == |s| + CountIn(s, special)
    decreases |s|
  {
    if |s| > 0 {
      EscapeLength(s[1..], special);
    }
  }

  /** Escaping a string without special characters changes nothing. */
  lemma {:induction false} EscapeNoSpecial(s: string, special: set<char>)
    requires '\\' !in special
    requires forall i :: 0 <= i < |s| ==> s[i] !in special
    ensures Escape(s, special) == s
    decreases |s|
  {
    if |s| > 0 {
      EscapeNoSpecial(s[1..], special);
      assert [s[0]] + s[1..] == s;
    }
  }

  /** ASCII lower-casing of one character. */
  function LowerChar(c: char): char {
    if 'A' <= c <= 'Z' then (c as int + 32) as char else c
  }

  /** Python's `s.lower()` restricted to ASCII letters. */
  function Lower(s: string): (r: string)
    ensures |r| == |s|
    ensures forall i :: 0 <= i < |s| ==> r[i] == LowerChar(s[i])
  {
    seq(|s|, i requires 0 <= i < |s| => LowerChar(s[i]))
  }
}

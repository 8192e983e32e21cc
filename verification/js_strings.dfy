/** The two JavaScript string operations the handler uses:
    `String.prototype.trim` on the invite code and
    `String.prototype.split` on the email claim. */
module JsStrings {

  /** The code points `trim` removes: the ECMAScript WhiteSpace set (tab,
      vertical tab, form feed, no-break space, byte order mark and every
      Unicode "Space_Separator") and the LineTerminator set (line feed,
      carriage return, line and paragraph separators). */
  predicate IsWhitespace(c: char) {
    || c == '\t' || c == '\n' || c == '\U{000B}' || c == '\U{000C}' || c == '\r'
    || c == ' ' || c == '\U{00A0}' || c == '\U{1680}'
    || ('\U{2000}' <= c <= '\U{200A}')
    || c == '\U{2028}' || c == '\U{2029}' || c == '\U{202F}' || c == '\U{205F}'
    || c == '\U{3000}' || c == '\U{FEFF}'
  }

  /** Every code point of `s` in positions `lo` up to (not including) `hi` is whitespace. */
  predicate WhitespaceBetween(s: string, lo: int, hi: int)
    requires 0 <= lo <= hi <= |s|
  {
    forall i | lo <= i < hi :: IsWhitespace(s[i])
  }

  predicate AllWhitespace(s: string) {
    WhitespaceBetween(s, 0, |s|)
  }

  /** A string with nothing for `trim` to remove at either end. */
  predicate Trimmed(s: string) {
    s == [] || (!IsWhitespace(s[0]) && !IsWhitespace(s[|s| - 1]))
  }

  /** How many whitespace code points `s` starts with. */
  function LeadingWhitespace(s: string): (n: nat)
    ensures n <= |s| && WhitespaceBetween(s, 0, n)
    ensures n < |s| ==> !IsWhitespace(s[n])
  {
    if |s| > 0 && IsWhitespace(s[0]) then
      var n := 1 + LeadingWhitespace(s[1..]);
      assert forall i | 1 <= i < n :: s[i] == s[1..][i - 1];
      n
    else
      0
  }

  /** How many whitespace code points `s` ends with. */
  function TrailingWhitespace(s: string): (n: nat)
    ensures n <= |s| && WhitespaceBetween(s, |s| - n, |s|)
    ensures n < |s| ==> !IsWhitespace(s[|s| - n - 1])
  {
    if |s| > 0 && IsWhitespace(s[|s| - 1]) then
      var n := 1 + TrailingWhitespace(s[..|s| - 1]);
      assert forall i | |s| - n <= i < |s| - 1 :: s[i] == s[..|s| - 1][i];
      n
    else
      0
  }

  /** `s.trim()`: `s` with the whitespace removed at both ends. The result
      is the piece of `s` after its leading whitespace, everything cut away
      after it is whitespace too, and it is empty exactly when `s` is all
      whitespace. */
  function Trim(s: string): (r: string)
    ensures Trimmed(r)
    ensures var lo := LeadingWhitespace(s);
            && lo + |r| <= |s| && r == s[lo..lo + |r|]
            && WhitespaceBetween(s, lo + |r|, |s|)
    ensures r == [] <==> AllWhitespace(s)
  {
    var lo := LeadingWhitespace(s);
    var hi := |s| - TrailingWhitespace(s);
    if lo == |s| then
      []
    else
      s[lo..hi]
  }

  /** The leading whitespace count is the one index that has only
      whitespace before it and no whitespace at it. */
  lemma LeadingWhitespaceUnique(s: string, n: nat)
    requires n <= |s| && WhitespaceBetween(s, 0, n)
    requires n < |s| ==> !IsWhitespace(s[n])
    ensures LeadingWhitespace(s) == n
  {
  }

  /** Likewise, the trailing whitespace count is the one length whose tail
      is all whitespace and is not preceded by whitespace. */
  lemma TrailingWhitespaceUnique(s: string, n: nat)
    requires n <= |s| && WhitespaceBetween(s, |s| - n, |s|)
    requires n < |s| ==> !IsWhitespace(s[|s| - n - 1])
    ensures TrailingWhitespace(s) == n
  {
  }

  /** `parts.join([sep])`: the pieces with one separator between each pair. */
  function Join(parts: seq<string>, sep: char): (s: string)
    requires |parts| > 0
  {
    if |parts| == 1 then parts[0] else parts[0] + [sep] + Join(parts[1..], sep)
  }

  /** `s.split(sep)` for a one-character separator: the pieces between the
      separators, none of which holds the separator, and which join back to
      `s`. An empty `s` gives one empty piece. */
  function Split(s: string, sep: char): (parts: seq<string>)
    ensures |parts| > 0
    ensures forall i | 0 <= i < |parts| :: sep !in parts[i]
    ensures Join(parts, sep) == s
  {
    if s == [] then
      [[]]
    else
      var rest := Split(s[1..], sep);
      if s[0] == sep then
        assert ([[]] + rest)[1..] == rest;
        [[]] + rest
      else
        var parts := [[s[0]] + rest[0]] + rest[1..];
        assert parts[1..] == rest[1..];
        parts
  }

  /** `s.split(sep)[0]`: the part of `s` before the first separator, or all
      of `s` when it holds none. */
  function BeforeFirst(s: string, sep: char): (r: string)
    ensures |r| <= |s| && r == s[..|r|]
    ensures sep !in r
    ensures |r| == |s| || s[|r|] == sep
  {
    var parts := Split(s, sep);
    JoinHead(parts, sep);
    parts[0]
  }

  /** The part before the first separator is exactly the separator-free
      head of the string, whatever follows that first separator. */
  lemma BeforeFirstStopsAtSeparator(head: string, sep: char, tail: string)
    requires sep !in head
    ensures BeforeFirst(head + [sep] + tail, sep) == head
  {
    var s := head + [sep] + tail;
    assert s[|head|] == sep;
    assert forall i | 0 <= i < |head| :: s[i] == head[i];
    assert s[..|head|] == head;
  }

  /** A joined string starts with its first piece, followed by a separator
      when there is more than one piece. */
  lemma JoinHead(parts: seq<string>, sep: char)
    requires |parts| > 0
    ensures |parts[0]| <= |Join(parts, sep)|
    ensures Join(parts, sep)[..|parts[0]|] == parts[0]
    ensures |parts| == 1 <==> |Join(parts, sep)| == |parts[0]|
    ensures |parts| > 1 ==> Join(parts, sep)[|parts[0]|] == sep
  {
  }

  /** Trimming a string padded with whitespace on both sides gives back the
      padded string, when that string has nothing to trim itself. */
  lemma TrimPadded(a: string, t: string, b: string)
    requires AllWhitespace(a) && AllWhitespace(b)
    requires Trimmed(t)
    ensures Trim(a + t + b) == t
  {
    var s := a + t + b;
    if t == [] {
      assert AllWhitespace(s) by {
        assert forall i | 0 <= i < |s| :: s[i] == (if i < |a| then a[i] else b[i - |a|]);
      }
    } else {
      assert forall i | 0 <= i < |a| :: s[i] == a[i];
      assert forall i | 0 <= i < |b| :: s[|a| + |t| + i] == b[i];
      assert s[|a|] == t[0] && s[|a| + |t| - 1] == t[|t| - 1];
      LeadingWhitespaceUnique(s, |a|);
      TrailingWhitespaceUnique(s, |b|);
      assert s[|a|..|a| + |t|] == t;
    }
  }

  /** A string with nothing to trim is its own trim. */
  lemma TrimIsIdentityOnTrimmed(s: string)
    requires Trimmed(s)
    ensures Trim(s) == s
  {
  }

  /** Trimming twice is trimming once. */
  lemma TrimIdempotent(s: string)
    ensures Trim(Trim(s)) == Trim(s)
  {
  }

  /** Splitting a joined sequence of separator-free pieces gives the pieces
      back: together with Split's own contract, `Split` and `Join` are
      inverse to each other. */
  lemma {:induction false} SplitJoin(parts: seq<string>, sep: char)
    requires |parts| > 0
    requires forall i | 0 <= i < |parts| :: sep !in parts[i]
    ensures Split(Join(parts, sep), sep) == parts
  {
    if |parts| == 1 {
      SplitPrefix(parts[0], [], sep);
      assert parts[0] + [] == parts[0];
      assert Split([], sep) == [[]];
    } else {
      var tail := Join(parts[1..], sep);
      SplitJoin(parts[1..], sep);
      assert Join(parts, sep) == parts[0] + ([sep] + tail);
      SplitPrefix(parts[0], [sep] + tail, sep);
      assert ([sep] + tail)[1..] == tail;
      assert Split([sep] + tail, sep) == [[]] + parts[1..];
      assert parts[0] + [] == parts[0];
      assert parts == [parts[0]] + parts[1..];
    }
  }

  /** A separator-free prefix is glued onto the first piece of the rest. */
  lemma {:induction false} SplitPrefix(p: string, rest: string, sep: char)
    requires sep !in p
    ensures Split(p + rest, sep) == [p + Split(rest, sep)[0]] + Split(rest, sep)[1..]
  {
    if p == [] {
      assert p + rest == rest;
      assert p + Split(rest, sep)[0] == Split(rest, sep)[0];
      assert Split(rest, sep) == [Split(rest, sep)[0]] + Split(rest, sep)[1..];
    } else {
      assert (p + rest)[1..] == p[1..] + rest;
      SplitPrefix(p[1..], rest, sep);
      assert [p[0]] + (p[1..] + Split(rest, sep)[0]) == p + Split(rest, sep)[0];
    }
  }
}

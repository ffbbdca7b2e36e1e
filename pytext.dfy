/** The operations on Python `str` values that the list queries and the user
    manager rely on: `str.isspace`, `str.strip`, `str.lower` (on ASCII letters),
    `str.split(sep)` and `str.rsplit(sep, 1)`. A string is a sequence of code points. */
module PyText {
  import opened Results

  /** Python's `str.isspace` on one code point: the Unicode White_Space
      characters, plus U+001C..U+001F, which Python also counts as space. */
  predicate IsSpace(c: char) {
    || c == ' '
    || ('\t' <= c <= '\r')
    || ('\U{1C}' <= c <= '\U{1F}')
    || c == '\U{85}' || c == '\U{A0}' || c == '\U{1680}'
    || ('\U{2000}' <= c <= '\U{200A}')
    || c == '\U{2028}' || c == '\U{2029}' || c == '\U{202F}'
    || c == '\U{205F}' || c == '\U{3000}'
  }

  /** The index of the first character at or after `i` that is not `space`. */
  function SkipSpace(s: string, i: nat, space: char -> bool): (n: nat)
    requires i <= |s|
    ensures i <= n <= |s|
    ensures forall k :: i <= k < n ==> space(s[k])
    ensures n < |s| ==> !space(s[n])
    decreases |s| - i
  {
    if i == |s| || !space(s[i]) then i else SkipSpace(s, i + 1, space)
  }

  /** The end of the text in `s[lo..j]` once trailing `space` characters are dropped. */
  function SkipSpaceBack(s: string, lo: nat, j: nat, space: char -> bool): (n: nat)
    requires lo <= j <= |s|
    ensures lo <= n <= j
    ensures forall k :: n <= k < j ==> space(s[k])
    ensures n > lo ==> !space(s[n - 1])
    decreases j - lo
  {
    if j == lo || !space(s[j - 1]) then j else SkipSpaceBack(s, lo, j - 1, space)
  }

  /** Python truthiness of an optional string: present and not "". */
  predicate IsTruthy(s: Option<string>) {
    s.Some? && s.value != ""
  }

  /** The number of `space` characters that `s` starts with. */
  function LeadingSpace(s: string, space: char -> bool): (n: nat)
    ensures n <= |s|
  {
    SkipSpace(s, 0, space)
  }

  /** The slice of `s` left after removing the characters that satisfy
      `space` at both ends. Everything removed satisfies `space` and neither
      end of the result does, so the result keeps every inner character. */
  function Trim(s: string, space: char -> bool): (r: string)
    ensures LeadingSpace(s, space) + |r| <= |s|
    ensures r == s[LeadingSpace(s, space)..LeadingSpace(s, space) + |r|]
    ensures forall k :: 0 <= k < LeadingSpace(s, space) ==> space(s[k])
    ensures forall k :: LeadingSpace(s, space) + |r| <= k < |s| ==> space(s[k])
    ensures r == [] || (!space(r[0]) && !space(r[|r| - 1]))
  {
    var a := LeadingSpace(s, space);
    var b := SkipSpaceBack(s, a, |s|, space);
    s[a..b]
  }

  /** `s.strip()`: `s` without the white space at both ends. */
  function Strip(s: string): (r: string)
    ensures LeadingSpace(s, IsSpace) + |r| <= |s|
    ensures r == s[LeadingSpace(s, IsSpace)..LeadingSpace(s, IsSpace) + |r|]
    ensures forall k :: 0 <= k < LeadingSpace(s, IsSpace) ==> IsSpace(s[k])
    ensures forall k :: LeadingSpace(s, IsSpace) + |r| <= k < |s| ==> IsSpace(s[k])
    ensures r == [] || (!IsSpace(r[0]) && !IsSpace(r[|r| - 1]))
  {
    Trim(s, IsSpace)
  }

  /** Every character of the trimmed string comes from the string. */
  lemma TrimFrom(s: string, space: char -> bool, c: char)
    requires c in Trim(s, space)
    ensures c in s
  {
    var a := LeadingSpace(s, space);
    var b := SkipSpaceBack(s, a, |s|, space);
    var i :| 0 <= i < b - a && s[a..b][i] == c;
    assert s[a + i] == c;
  }

  /** Every character of the string that is not `space` is kept. */
  lemma TrimKeeps(s: string, space: char -> bool, i: nat)
    requires i < |s| && !space(s[i])
    ensures s[i] in Trim(s, space)
  {
    var a := LeadingSpace(s, space);
    var b := SkipSpaceBack(s, a, |s|, space);
    assert a <= i < b;
    assert s[a..b][i - a] == s[i];
  }

  /** A string whose ends are not `space` is its own trim. */
  lemma TrimUnchanged(s: string, space: char -> bool)
    requires s == [] || (!space(s[0]) && !space(s[|s| - 1]))
    ensures Trim(s, space) == s
  {
  }

  /** Python's `str.lower` on ASCII letters; other code points are kept. */
  function LowerChar(c: char): (d: char)
    ensures IsSpace(d) <==> IsSpace(c)
    ensures d == '@' <==> c == '@'
    ensures !('A' <= d <= 'Z')
  {
    if 'A' <= c <= 'Z' then (c as int + 32) as char else c
  }

  function Lower(s: string): (r: string)
    ensures |r| == |s|
    ensures forall i :: 0 <= i < |s| ==> r[i] == LowerChar(s[i])
  {
    if s == [] then [] else [LowerChar(s[0])] + Lower(s[1..])
  }

  /** Lower-casing twice is lower-casing once. */
  lemma LowerIdempotent(s: string)
    ensures Lower(Lower(s)) == Lower(s)
  {
  }

  /** The index of the first `c` at or after `i`, or `|s|` when there is none. */
  function IndexOf(s: string, c: char, i: nat): (n: nat)
    requires i <= |s|
    ensures i <= n <= |s|
    ensures forall k :: i <= k < n ==> s[k] != c
    ensures n < |s| ==> s[n] == c
    decreases |s| - i
  {
    if i == |s| || s[i] == c then i else IndexOf(s, c, i + 1)
  }

  /** `s.split(sep)` for a one-character separator: never empty, no piece
      contains the separator, and joining the pieces gives `s` back
      (see JoinSplit). `"".split(",")` is `[""]`. */
  function Split(s: string, sep: char): (r: seq<string>)
    ensures |r| >= 1
    ensures forall i :: 0 <= i < |r| ==> sep !in r[i]
    decreases |s|
  {
    var n := IndexOf(s, sep, 0);
    if n == |s| then [s]
    else
      var rest := Split(s[n + 1..], sep);
      assert forall k :: 0 <= k < n ==> s[..n][k] == s[k];
      [s[..n]] + rest
  }

  /** `sep.join(parts)`. */
  function Join(parts: seq<string>, sep: char): (r: string)
    requires |parts| >= 1
  {
    if |parts| == 1 then parts[0] else parts[0] + [sep] + Join(parts[1..], sep)
  }

  /** Joining the pieces of a split gives back the string. */
  lemma {:induction false} JoinSplit(s: string, sep: char)
    ensures Join(Split(s, sep), sep) == s
    decreases |s|
  {
    var n := IndexOf(s, sep, 0);
    if n < |s| {
      var rest := Split(s[n + 1..], sep);
      JoinSplit(s[n + 1..], sep);
      var r := [s[..n]] + rest;
      assert r[1..] == rest;
      assert s == s[..n] + [sep] + s[n + 1..];
    }
  }

  /** Splitting a join of separator-free pieces gives the pieces back. */
  lemma {:induction false} SplitJoin(parts: seq<string>, sep: char)
    requires |parts| >= 1
    requires forall i :: 0 <= i < |parts| ==> sep !in parts[i]
    ensures Split(Join(parts, sep), sep) == parts
  {
    var p := parts[0];
    var j := Join(parts, sep);
    var n := IndexOf(j, sep, 0);
    if |parts| == 1 {
      assert n == |p|;
    } else {
      var tail := Join(parts[1..], sep);
      SplitJoin(parts[1..], sep);
      assert j == p + [sep] + tail;
      assert j[|p|] == sep;
      assert j[..n] == p;
      assert j[n + 1..] == tail;
      assert parts == [p] + parts[1..];
    }
  }

  /** The index of the last `c` in `s`, or -1 when `s` has none. */
  function LastIndexOf(s: string, c: char): (i: int)
    ensures -1 <= i < |s|
    ensures i >= 0 ==> s[i] == c
    ensures forall j :: i < j < |s| ==> s[j] != c
  {
    if s == [] then -1
    else if s[|s| - 1] == c then |s| - 1
    else LastIndexOf(s[..|s| - 1], c)
  }

  /** `s.rsplit(sep, 1)`: `[s]` when `s` has no separator, otherwise the
      text before and after the last separator. */
  function RSplitOnce(s: string, sep: char): (r: seq<string>)
    ensures sep !in s ==> r == [s]
    ensures sep in s ==> |r| == 2 && s == r[0] + [sep] + r[1] && sep !in r[1]
  {
    var i := LastIndexOf(s, sep);
    if i < 0 then [s]
    else
      assert s == s[..i] + [sep] + s[i + 1..];
      [s[..i], s[i + 1..]]
  }

  /** When neither end of `s` is white space, the text before the last
      separator does not start with white space and the text after it does
      not end with it. */
  lemma RSplitOnceEnds(s: string, sep: char)
    requires sep in s && !IsSpace(s[0]) && !IsSpace(s[|s| - 1])
    ensures RSplitOnce(s, sep)[0] == [] || !IsSpace(RSplitOnce(s, sep)[0][0])
    ensures RSplitOnce(s, sep)[1] == [] || !IsSpace(RSplitOnce(s, sep)[1][|RSplitOnce(s, sep)[1]| - 1])
  {
    var r := RSplitOnce(s, sep);
    assert r[0] != [] ==> r[0][0] == s[0];
    assert r[1] != [] ==> r[1][|r[1]| - 1] == s[|s| - 1];
  }

  /** The split of RSplitOnce is the only one whose right part has no separator. */
  lemma RSplitOnceUnique(left: string, right: string, sep: char)
    requires sep !in right
    ensures RSplitOnce(left + [sep] + right, sep) == [left, right]
  {
    var s := left + [sep] + right;
    assert s[|left|] == sep;
    var i := LastIndexOf(s, sep);
    assert s[..|left|] == left && s[|left| + 1..] == right;
  }
}

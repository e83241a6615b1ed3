/** The few built-in Python string operations the subtitle and matching code
    relies on, on `string` = `seq<char>` (code points). */
module PyStr {

  /** `c.isspace()`: the characters Python treats as whitespace in
      `str.split()`, `str.strip()` and `str.lstrip()`. */
  predicate IsSpace(c: char) {
    ('\U{9}' <= c <= '\U{D}') || ('\U{1C}' <= c <= '\U{1F}') || c == ' ' ||
    c == '\U{85}' || c == '\U{A0}' || c == '\U{1680}' || ('\U{2000}' <= c <= '\U{200A}') ||
    c == '\U{2028}' || c == '\U{2029}' || c == '\U{202F}' || c == '\U{205F}' || c == '\U{3000}'
  }

  predicate AllSpace(s: string) {
    forall i :: 0 <= i < |s| ==> IsSpace(s[i])
  }

  /** `s.lstrip()`: drop the leading whitespace. */
  function LStrip(s: string): (r: string)
    ensures |r| <= |s| && r == s[|s| - |r|..]
    ensures AllSpace(s[..|s| - |r|])
    ensures r == [] || !IsSpace(r[0])
    decreases |s|
  {
    if s != [] && IsSpace(s[0]) then LStrip(s[1..]) else s
  }

  /** `lstrip()` leaves a string that starts with a non-space as it is. */
  lemma LStripKeeps(s: string)
    requires s == [] || !IsSpace(s[0])
    ensures LStrip(s) == s
  {
  }

  /** `lstrip()` drops one leading space and then goes on. */
  lemma LStripSpace(s: string)
    ensures LStrip(" " + s) == LStrip(s)
  {
    assert (" " + s)[1..] == s;
  }

  /** Python's `a <= b` on strings: lexicographic by code point, a proper
      prefix being smaller. */
  predicate StrLe(a: string, b: string)
    decreases |a|
  {
    if a == [] then true
    else if b == [] then false
    else if a[0] != b[0] then a[0] < b[0]
    else StrLe(a[1..], b[1..])
  }

  /** Whether `sub` occurs in `s` at position `p`. */
  predicate OccursAt(s: string, sub: string, p: int) {
    0 <= p && p + |sub| <= |s| && s[p..p + |sub|] == sub
  }

  /** `s.find(sub, p, len(s))` for `p >= 0`: the lowest position `q >= p` at
      which `sub` occurs wholly inside `s`, or -1. */
  function Find(s: string, sub: string, p: nat): (r: int)
    ensures r == -1 || (p <= r && OccursAt(s, sub, r))
    ensures r >= 0 ==> forall q :: p <= q < r ==> !OccursAt(s, sub, q)
    ensures r == -1 ==> forall q :: p <= q ==> !OccursAt(s, sub, q)
    decreases |s| - p
  {
    if p + |sub| > |s| then -1
    else if s[p..p + |sub|] == sub then p
    else Find(s, sub, p + 1)
  }

  /** `s.count(c)` for a one-character string `c`. */
  function CountChar(s: string, c: char): (n: nat)
    ensures n <= |s|
    decreases |s|
  {
    if s == [] then 0 else CountChar(s[..|s| - 1], c) + (if s[|s| - 1] == c then 1 else 0)
  }

  /** Counting the words of `s` (maximal runs of non-whitespace) when the
      previous character was (`inWord`) or was not part of a word. */
  function WordsFrom(s: string, inWord: bool): nat
    decreases |s|
  {
    if s == [] then 0
    else if IsSpace(s[0]) then WordsFrom(s[1..], false)
    else (if inWord then 0 else 1) + WordsFrom(s[1..], true)
  }

  /** `len(s.split())`. */
  function WordCount(s: string): nat {
    WordsFrom(s, false)
  }

  /** There are never more words than characters. */
  lemma {:induction false} WordsFromBound(s: string, inWord: bool)
    ensures WordsFrom(s, inWord) <= |s|
    decreases |s|
  {
    if s != [] {
      WordsFromBound(s[1..], !IsSpace(s[0]));
    }
  }

  /** A string has no word exactly when it is all whitespace. */
  lemma {:induction false} WordCountZero(s: string)
    ensures WordCount(s) == 0 <==> AllSpace(s)
    decreases |s|
  {
    if s != [] && IsSpace(s[0]) {
      WordCountZero(s[1..]);
      assert AllSpace(s) <==> AllSpace(s[1..]);
    }
  }

  /** `s.split(c)` for a one-character separator `c`. */
  function Split(s: string, c: char): (parts: seq<string>)
    ensures |parts| >= 1
    decreases |s|
  {
    if s == [] then [""]
    else
      var rest := Split(s[1..], c);
      if s[0] == c then [""] + rest else [[s[0]] + rest[0]] + rest[1..]
  }

  lemma {:induction false} SplitNoSeparator(s: string, c: char)
    requires c !in s
    ensures Split(s, c) == [s]
    decreases |s|
  {
    if s != [] {
      SplitNoSeparator(s[1..], c);
      assert [s[0]] + s[1..] == s;
    }
  }

  lemma {:induction false} SplitAtFirst(a: string, c: char, b: string)
    requires c !in a
    ensures Split(a + [c] + b, c) == [a] + Split(b, c)
    decreases |a|
  {
    var s := a + [c] + b;
    if a == [] {
      assert s[1..] == b;
    } else {
      assert s[1..] == a[1..] + [c] + b;
      SplitAtFirst(a[1..], c, b);
      assert [a[0]] + a[1..] == a;
    }
  }
}

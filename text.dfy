/** The JavaScript string operations the flattener and the list view use:
    `trim`, `indexOf`, `substring`, `join`, and the character classes `\s`
    and `\w` of JavaScript regular expressions. */
module Text {

  /** `\s` of a JavaScript regular expression, which is also the set of
      characters `String.prototype.trim` removes: the WhiteSpace and
      LineTerminator code points of ECMAScript. */
  predicate IsSpace(c: char) {
    c == '\t' || c == '\n' || c == '\U{B}' || c == '\U{C}' || c == '\r' ||
    c == ' ' || c == '\U{A0}' || c == '\U{1680}' ||
    ('\U{2000}' <= c <= '\U{200A}') ||
    c == '\U{2028}' || c == '\U{2029}' || c == '\U{202F}' || c == '\U{205F}' ||
    c == '\U{3000}' || c == '\U{FEFF}'
  }

  /** `\w` of a JavaScript regular expression without the `u` and `i`
      flags; `[\w\d]` is the same class. */
  predicate IsWordChar(c: char) {
    ('A' <= c <= 'Z') || ('a' <= c <= 'z') || ('0' <= c <= '9') || c == '_'
  }

  /** The class `[\.\w\d]`: a word character or a dot. A hyphen is not in it. */
  predicate IsHostChar(c: char) {
    IsWordChar(c) || c == '.'
  }

  predicate AllSpace(s: string) {
    forall k :: 0 <= k < |s| ==> IsSpace(s[k])
  }

  /** `r` is what remains of `s` once all leading and trailing whitespace is
      removed: a slice of `s` that neither starts nor ends with whitespace and
      leaves only whitespace on either side. */
  ghost predicate IsTrimOf(r: string, s: string) {
    (exists i :: 0 <= i <= |s| - |r| && r == s[i..i + |r|] && AllSpace(s[..i]) && AllSpace(s[i + |r|..])) &&
    (r != [] ==> !IsSpace(r[0]) && !IsSpace(r[|r| - 1]))
  }

  /** The number of whitespace characters `s` starts with. */
  function LeadingSpace(s: string): (n: nat)
    ensures n <= |s| && AllSpace(s[..n])
    ensures n < |s| ==> !IsSpace(s[n])
  {
    if s == [] || !IsSpace(s[0]) then 0
    else
      var n := 1 + LeadingSpace(s[1..]);
      assert forall k :: 1 <= k < n ==> s[..n][k] == s[1..][..n - 1][k - 1];
      n
  }

  /** The length of `s` without the whitespace it ends with. */
  function TrailingStart(s: string): (n: nat)
    ensures n <= |s| && AllSpace(s[n..])
    ensures 0 < n ==> !IsSpace(s[n - 1])
  {
    if s == [] || !IsSpace(s[|s| - 1]) then |s|
    else
      var n := TrailingStart(s[..|s| - 1]);
      assert forall k :: 0 <= k < |s| - 1 - n ==> s[n..][k] == s[..|s| - 1][n..][k];
      n
  }

  /** `String.prototype.trim`. */
  function Trim(s: string): (r: string)
    ensures IsTrimOf(r, s)
  {
    var i := LeadingSpace(s);
    var t := s[i..];
    var j := TrailingStart(t);
    var r := t[..j];
    assert r == s[i..i + |r|];
    assert s[i + |r|..] == t[j..];
    r
  }

  /** There is only one way to trim a string. */
  lemma TrimUnique(s: string, r: string)
    requires IsTrimOf(r, s)
    ensures r == Trim(s)
  {
    var i :| 0 <= i <= |s| - |r| && r == s[i..i + |r|] && AllSpace(s[..i]) && AllSpace(s[i + |r|..]);
    var n := LeadingSpace(s);
    if r == [] {
      forall k | 0 <= k < |s| ensures IsSpace(s[k]) {
        if k < i { assert s[..i][k] == s[k]; } else { assert s[i..][k - i] == s[k]; }
      }
      assert n == |s|;
    } else {
      TrimFrom(s, r, i);
    }
  }

  /** A trim that keeps something starts at the first non-whitespace
      character and ends after the last one. */
  lemma TrimFrom(s: string, r: string, i: nat)
    requires r != [] && !IsSpace(r[0]) && !IsSpace(r[|r| - 1])
    requires i + |r| <= |s| && r == s[i..i + |r|]
    requires AllSpace(s[..i]) && AllSpace(s[i + |r|..])
    ensures r == Trim(s)
  {
    var n := LeadingSpace(s);
    assert s[i] == r[0];
    assert n == i;
    var t := s[i..];
    var j := TrailingStart(t);
    var e := |r|;
    assert t[e - 1] == r[e - 1];
    assert j == e;
  }

  /** A string that neither starts nor ends with whitespace is its own trim. */
  lemma TrimKeeps(s: string)
    requires s != [] ==> !IsSpace(s[0]) && !IsSpace(s[|s| - 1])
    ensures Trim(s) == s
  {
    assert s == s[0..0 + |s|] && s[..0] == [] && s[0 + |s|..] == [];
    TrimUnique(s, s);
  }

  /** Trimming twice is trimming once. */
  lemma TrimIdempotent(s: string)
    ensures Trim(Trim(s)) == Trim(s)
  {
    TrimKeeps(Trim(s));
  }

  /** `p` is the position of the first `c` in `s`. */
  predicate FirstAt(s: string, c: char, p: int) {
    0 <= p < |s| && s[p] == c && c !in s[..p]
  }

  /** `s.indexOf(c)`: the position of the first `c`, or -1 if there is none. */
  function IndexOf(s: string, c: char): (r: int)
    ensures -1 <= r < |s|
    ensures r == -1 <==> c !in s
    ensures 0 <= r ==> FirstAt(s, c, r)
  {
    if s == [] then -1
    else if s[0] == c then 0
    else
      var r := IndexOf(s[1..], c);
      assert s == [s[0]] + s[1..];
      if r == -1 then -1
      else
        assert s[..r + 1] == [s[0]] + s[1..][..r];
        r + 1
  }

  /** The first occurrence is the one `indexOf` finds. */
  lemma IndexOfFirst(s: string, c: char, p: int)
    requires FirstAt(s, c, p)
    ensures IndexOf(s, c) == p
  {
  }

  /** No occurrence comes before the first. */
  lemma FirstAtLeast(s: string, c: char, p: int, q: int)
    requires FirstAt(s, c, p) && 0 <= q < |s| && s[q] == c
    ensures p <= q
  {
  }

  /** The end of the longest run of characters satisfying `p` that starts
      at `i`: what a greedy `+` or `*` over a character class consumes. */
  function RunEnd(s: string, i: nat, p: char -> bool): (j: nat)
    requires i <= |s|
    ensures i <= j <= |s|
    ensures forall k :: i <= k < j ==> p(s[k])
    ensures j < |s| ==> !p(s[j])
    decreases |s| - i
  {
    if i == |s| || !p(s[i]) then i else RunEnd(s, i + 1, p)
  }

  lemma AppendAssociative<T>(a: seq<T>, b: seq<T>, c: seq<T>)
    ensures a + (b + c) == (a + b) + c
  {
    assert forall i :: 0 <= i < |a| + |b| + |c| ==> (a + (b + c))[i] == ((a + b) + c)[i];
  }

  /** `Array.prototype.join(sep)` on an array of strings. */
  function Join(parts: seq<string>, sep: string): string
  {
    if parts == [] then ""
    else if |parts| == 1 then parts[0]
    else parts[0] + sep + Join(parts[1..], sep)
  }

  /** Appending a part to a non-empty join puts one separator before it. */
  lemma {:induction false} JoinAppend(parts: seq<string>, sep: string, last: string)
    requires parts != []
    ensures Join(parts + [last], sep) == Join(parts, sep) + sep + last
    decreases |parts|
  {
    var all := parts + [last];
    if |parts| > 1 {
      assert all[1..] == parts[1..] + [last];
      JoinAppend(parts[1..], sep, last);
    } else {
      assert all[1..] == [last];
    }
  }
}

/**
 * The string operations the component relies on: `trim`, `toLowerCase`,
 * `indexOf` on strings and `join` on arrays of strings.
 */
module Text {

  /** The code points ECMAScript classes as WhiteSpace or LineTerminator: the ones `trim` removes. */
  predicate IsWhitespace(c: char)
  {
    var n := c as int;
    n == 0x09 || n == 0x0A || n == 0x0B || n == 0x0C || n == 0x0D || n == 0x20 ||
    n == 0xA0 || n == 0x1680 || (0x2000 <= n <= 0x200A) || n == 0x2028 || n == 0x2029 ||
    n == 0x202F || n == 0x205F || n == 0x3000 || n == 0xFEFF
  }

  /** The position of the first non-whitespace character of `s` at or after `i`, or `|s|`. */
  function ContentStart(s: string, i: nat): (a: nat)
    requires i <= |s|
    ensures i <= a <= |s|
    ensures forall k :: i <= k < a ==> IsWhitespace(s[k])
    ensures a < |s| ==> !IsWhitespace(s[a])
    decreases |s| - i
  {
    if i < |s| && IsWhitespace(s[i]) then ContentStart(s, i + 1) else i
  }

  /** The position just past the last non-whitespace character of `s[a..j]`, or `a` when there is none. */
  function ContentEnd(s: string, a: nat, j: nat): (b: nat)
    requires a <= j <= |s|
    ensures a <= b <= j
    ensures forall k :: b <= k < j ==> IsWhitespace(s[k])
    ensures b > a ==> !IsWhitespace(s[b - 1])
    decreases j
  {
    if j > a && IsWhitespace(s[j - 1]) then ContentEnd(s, a, j - 1) else j
  }

  /** Every character of `s` before `a` and from `b` on is whitespace. */
  ghost predicate WhitespaceOutside(s: string, a: int, b: int)
  {
    0 <= a <= b <= |s| &&
    (forall k :: 0 <= k < a ==> IsWhitespace(s[k])) &&
    (forall k :: b <= k < |s| ==> IsWhitespace(s[k]))
  }

  /**
   * `String.prototype.trim`: the part of `s` between its leading and its
   * trailing whitespace.
   */
  function Trim(s: string): (r: string)
    ensures exists a, b :: WhitespaceOutside(s, a, b) && r == s[a..b]
    ensures r != [] ==> !IsWhitespace(r[0]) && !IsWhitespace(r[|r| - 1])
    ensures r == [] <==> forall k :: 0 <= k < |s| ==> IsWhitespace(s[k])
  {
    var a := ContentStart(s, 0);
    var b := ContentEnd(s, a, |s|);
    assert WhitespaceOutside(s, a, b);
    s[a..b]
  }

  predicate IsUpper(c: char)
  {
    'A' <= c <= 'Z'
  }

  function LowerChar(c: char): char
  {
    if IsUpper(c) then (c as int + 32) as char else c
  }

  /** `String.prototype.toLowerCase`, for the ASCII letters only. */
  function ToLower(s: string): (r: string)
    ensures |r| == |s|
    ensures forall k :: 0 <= k < |r| ==> !IsUpper(r[k])
    ensures forall k :: 0 <= k < |s| && !IsUpper(s[k]) ==> r[k] == s[k]
    ensures forall k :: 0 <= k < |s| && IsUpper(s[k]) ==> r[k] == (s[k] as int + 32) as char
    ensures forall k :: 0 <= k < |s| ==> (IsWhitespace(r[k]) <==> IsWhitespace(s[k]))
  {
    seq(|s|, k requires 0 <= k < |s| => LowerChar(s[k]))
  }

  /**
   * The normal form the filter compares: the lower-cased text between the
   * leading and trailing whitespace of `s`.
   */
  function Normalize(s: string): (r: string)
    ensures exists a, b :: WhitespaceOutside(s, a, b) && r == ToLower(s[a..b])
    ensures forall k :: 0 <= k < |r| ==> !IsUpper(r[k])
    ensures r != [] ==> !IsWhitespace(r[0]) && !IsWhitespace(r[|r| - 1])
  {
    ToLower(Trim(s))
  }

  /** A string that neither starts nor ends with whitespace is its own trim. */
  lemma {:induction false} TrimOfTrimmed(s: string)
    requires s != [] ==> !IsWhitespace(s[0]) && !IsWhitespace(s[|s| - 1])
    ensures Trim(s) == s
  {
    if s != [] {
      assert ContentStart(s, 0) == 0;
      assert ContentEnd(s, 0, |s|) == |s|;
    }
  }

  /** A string without upper-case letters is its own lower-case form. */
  lemma LowerOfLower(s: string)
    requires forall k :: 0 <= k < |s| ==> !IsUpper(s[k])
    ensures ToLower(s) == s
  {
    assert forall k :: 0 <= k < |s| ==> ToLower(s)[k] == s[k];
  }

  /** Normalising twice is normalising once: the stored filter value is already in normal form. */
  lemma NormalizeIdempotent(s: string)
    ensures Normalize(Normalize(s)) == Normalize(s)
  {
    var n := Normalize(s);
    TrimOfTrimmed(n);
    LowerOfLower(n);
  }

  /** `q` occurs in `s` starting at position `i`. */
  ghost predicate OccursAt(s: string, q: string, i: int)
  {
    0 <= i && i + |q| <= |s| && s[i..i + |q|] == q
  }

  /** `q` is a substring of `s`. */
  ghost predicate IsSubstring(q: string, s: string)
  {
    exists i :: OccursAt(s, q, i)
  }

  /** The first occurrence of `q` in `s` at or after `from`, or -1. */
  function IndexOfFrom(s: string, q: string, from: nat): (r: int)
    requires from <= |s|
    ensures r == -1 || (from <= r && OccursAt(s, q, r))
    ensures r == -1 ==> forall i :: from <= i ==> !OccursAt(s, q, i)
    ensures r != -1 ==> forall i :: from <= i < r ==> !OccursAt(s, q, i)
    decreases |s| - from
  {
    if from + |q| > |s| then -1
    else if s[from..from + |q|] == q then from
    else IndexOfFrom(s, q, from + 1)
  }

  /** `String.prototype.indexOf`: the first position at which `q` occurs in `s`, or -1. */
  function SubstringIndex(s: string, q: string): (r: int)
    ensures r != -1 <==> IsSubstring(q, s)
    ensures r != -1 ==> OccursAt(s, q, r) && forall i :: 0 <= i < r ==> !OccursAt(s, q, i)
  {
    IndexOfFrom(s, q, 0)
  }

  /** The empty string occurs at the start of every string. */
  lemma EmptyOccursFirst(s: string)
    ensures SubstringIndex(s, "") == 0
  {
  }

  /** `Array.prototype.join`: the parts separated by `sep`; no parts give "", one part gives itself. */
  function Join(parts: seq<string>, sep: string): (r: string)
    ensures |parts| == 0 ==> r == ""
    ensures |parts| == 1 ==> r == parts[0]
  {
    if |parts| == 0 then ""
    else if |parts| == 1 then parts[0]
    else parts[0] + sep + Join(parts[1..], sep)
  }

  /** Joining one more part appends the separator and that part. */
  lemma {:induction false} JoinAppend(parts: seq<string>, sep: string, x: string)
    requires parts != []
    ensures Join(parts + [x], sep) == Join(parts, sep) + sep + x
  {
    if |parts| == 1 {
      assert (parts + [x])[1..] == [x];
    } else {
      assert (parts + [x])[1..] == parts[1..] + [x];
      JoinAppend(parts[1..], sep, x);
    }
  }

  /** A join starts with the first part, followed by the separator when more parts follow, and ends with the last part. */
  lemma {:induction false} JoinEnds(parts: seq<string>, sep: string)
    requires parts != []
    ensures |parts[0]| <= |Join(parts, sep)| && Join(parts, sep)[..|parts[0]|] == parts[0]
    ensures |parts| > 1 ==> Join(parts, sep)[..|parts[0]| + |sep|] == parts[0] + sep
    ensures |parts[|parts| - 1]| <= |Join(parts, sep)|
    ensures Join(parts, sep)[|Join(parts, sep)| - |parts[|parts| - 1]|..] == parts[|parts| - 1]
  {
    if |parts| > 1 {
      var rest := Join(parts[1..], sep);
      JoinEnds(parts[1..], sep);
      assert Join(parts, sep) == parts[0] + sep + rest;
      assert parts[1..][|parts[1..]| - 1] == parts[|parts| - 1];
    }
  }
}

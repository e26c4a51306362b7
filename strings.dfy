/**
 * The pieces of Python's `str` behaviour that the scripts rely on:
 * `isspace`, `strip()`, `split(sep)`, `sep.join(parts)`, `sep in s` and the
 * decimal rendering of an `int` inside an f-string.
 */
module Strings {

  /** Python's `str.isspace` for one character: the ASCII whitespace and separator
      controls, NEXT LINE, NO-BREAK SPACE and the Unicode space separators. */
  predicate IsSpace(c: char) {
    var n := c as int;
    || (0x09 <= n <= 0x0D)
    || (0x1C <= n <= 0x20)
    || n == 0x85 || n == 0xA0 || n == 0x1680
    || (0x2000 <= n <= 0x200A)
    || n == 0x2028 || n == 0x2029 || n == 0x202F || n == 0x205F || n == 0x3000
  }

  predicate AllSpace(s: string) {
    forall k :: 0 <= k < |s| ==> IsSpace(s[k])
  }

  /** Neither begins nor ends with whitespace. */
  predicate Stripped(s: string) {
    s == [] || (!IsSpace(s[0]) && !IsSpace(s[|s| - 1]))
  }

  /** Number of leading whitespace characters. */
  function LeadingSpaces(s: string): (i: nat)
    ensures i <= |s|
    ensures AllSpace(s[..i])
    ensures i < |s| ==> !IsSpace(s[i])
  {
    if s == [] || !IsSpace(s[0]) then 0
    else
      var i := 1 + LeadingSpaces(s[1..]);
      assert s[..i] == [s[0]] + s[1..][..i - 1];
      i
  }

  /** Index where the trailing whitespace starts. */
  function TrailingStart(s: string): (j: nat)
    ensures j <= |s|
    ensures AllSpace(s[j..])
    ensures 0 < j ==> !IsSpace(s[j - 1])
  {
    if s == [] || !IsSpace(s[|s| - 1]) then |s|
    else
      var j := TrailingStart(s[..|s| - 1]);
      assert s[j..] == s[..|s| - 1][j..] + [s[|s| - 1]];
      j
  }

  lemma {:induction false} LeadingSpacesAt(s: string, i: nat)
    requires i <= |s| && AllSpace(s[..i]) && (i < |s| ==> !IsSpace(s[i]))
    ensures LeadingSpaces(s) == i
  {
    if i > 0 {
      assert s[..i][0] == s[0];
      assert s[1..][..i - 1] == s[..i][1..];
      LeadingSpacesAt(s[1..], i - 1);
    }
  }

  lemma {:induction false} TrailingStartAt(s: string, j: nat)
    requires j <= |s| && AllSpace(s[j..]) && (0 < j ==> !IsSpace(s[j - 1]))
    ensures TrailingStart(s) == j
  {
    if j < |s| {
      var n := |s| - 1;
      assert s[j..][n - j] == s[n];
      assert s[..n][j..] == s[j..][..n - j];
      TrailingStartAt(s[..n], j);
    }
  }

  /** Python's `s.strip()` with no argument. */
  function Strip(s: string): (r: string)
    ensures Stripped(r)
    ensures |r| <= |s|
    ensures r == [] <==> AllSpace(s)
    ensures forall c :: c in r ==> c in s
  {
    var i := LeadingSpaces(s);
    var t := s[i..];
    var r := t[..TrailingStart(t)];
    assert r == [] ==> s == s[..i] + t[..TrailingStart(t)] + t[TrailingStart(t)..];
    assert r != [] ==> r[0] == s[i];
    r
  }

  /** `Strip` removes exactly the whitespace around a stripped core: this determines it. */
  lemma StripCharacterised(pre: string, mid: string, post: string)
    requires AllSpace(pre) && AllSpace(post) && Stripped(mid)
    ensures Strip(pre + mid + post) == mid
  {
    var s := pre + mid + post;
    if mid == [] {
      assert AllSpace(s) by {
        forall k | 0 <= k < |s| ensures IsSpace(s[k]) {
          if k < |pre| { assert s[k] == pre[k]; } else { assert s[k] == post[k - |pre|]; }
        }
      }
    } else {
      assert s[..|pre|] == pre;
      assert s[|pre|] == mid[0];
      LeadingSpacesAt(s, |pre|);
      var t := s[|pre|..];
      assert t == mid + post;
      assert t[|mid|..] == post;
      assert t[|mid| - 1] == mid[|mid| - 1];
      TrailingStartAt(t, |mid|);
      assert t[..|mid|] == mid;
    }
  }

  lemma StripIdempotent(s: string)
    ensures Strip(Strip(s)) == Strip(s)
  {
    var r := Strip(s);
    assert [] + r + [] == r;
    StripCharacterised([], r, []);
  }

  /** Position of the first `c` in `s`, or `|s|` when there is none. */
  function IndexOf(s: string, c: char): (i: nat)
    ensures i <= |s|
    ensures c !in s[..i]
    ensures i < |s| ==> s[i] == c
    ensures i == |s| <==> c !in s
  {
    if s == [] then 0
    else if s[0] == c then 0
    else
      var i := 1 + IndexOf(s[1..], c);
      assert s[..i] == [s[0]] + s[1..][..i - 1];
      assert i == |s| ==> s == [s[0]] + s[1..];
      i
  }

  /** Python's `s.split(sep)` for a one-character separator: the pieces between
      separators, at least one of them (`"".split(sep) == [""]`). */
  function Split(s: string, sep: char): (parts: seq<string>)
    ensures |parts| >= 1
    ensures forall p <- parts :: sep !in p
    ensures sep in s <==> |parts| >= 2
    decreases |s|
  {
    if s == [] then [[]]
    else
      var rest := Split(s[1..], sep);
      assert sep in s <==> s[0] == sep || sep in s[1..];
      if s[0] == sep then [[]] + rest
      else [[s[0]] + rest[0]] + rest[1..]
  }

  /** The pieces hold no character the text does not. */
  lemma {:induction false} SplitKeepsOut(s: string, sep: char, c: char)
    requires c !in s
    ensures forall p <- Split(s, sep) :: c !in p
    decreases |s|
  {
    if s != [] {
      SplitKeepsOut(s[1..], sep, c);
    }
  }

  /** `s.startswith(p)` */
  predicate StartsWith(s: string, p: string) {
    |p| <= |s| && s[..|p|] == p
  }

  /** Python's `sep.join(parts)`. */
  function Join(parts: seq<string>, sep: string): (r: string)
    ensures r == [] <==> (forall k :: 0 <= k < |parts| ==> parts[k] == []) && (|parts| <= 1 || sep == [])
    ensures |parts| >= 1 ==> StartsWith(r, parts[0])
  {
    if parts == [] then []
    else if |parts| == 1 then parts[0]
    else
      var rest := Join(parts[1..], sep);
      assert forall k :: 1 <= k < |parts| ==> parts[1..][k - 1] == parts[k];
      assert |parts[0] + sep + rest| == |parts[0]| + |sep| + |rest|;
      parts[0] + sep + rest
  }

  /** Splitting never loses a character: joining the pieces gives the text back. */
  lemma {:induction false} JoinSplit(s: string, sep: char)
    ensures Join(Split(s, sep), [sep]) == s
    decreases |s|
  {
    if s != [] {
      var rest := Split(s[1..], sep);
      JoinSplit(s[1..], sep);
      if s[0] == sep {
        assert Split(s, sep) == [[]] + rest;
        assert ([[]] + rest)[1..] == rest;
      } else {
        var parts := Split(s, sep);
        assert parts == [[s[0]] + rest[0]] + rest[1..];
        if |rest| == 1 {
          assert s == [s[0]] + s[1..];
        } else {
          assert parts[1..] == rest[1..];
          assert Join(rest, [sep]) == rest[0] + [sep] + Join(rest[1..], [sep]);
          assert s == [s[0]] + s[1..];
        }
      }
    }
  }

  /** Splitting text whose first `|p|` characters hold no separator. */
  lemma {:induction false} SplitAfterPlain(p: string, u: string, sep: char)
    requires sep !in p
    ensures Split(p + u, sep) == [p + Split(u, sep)[0]] + Split(u, sep)[1..]
    decreases |p|
  {
    if p == [] {
      var su := Split(u, sep);
      assert p + u == u && p + su[0] == su[0];
      assert su == [su[0]] + su[1..];
    } else {
      SplitAfterPlain(p[1..], u, sep);
      var su := Split(u, sep);
      var rest := Split(p[1..] + u, sep);
      assert (p + u)[1..] == p[1..] + u;
      assert (p + u)[0] == p[0] != sep;
      assert Split(p + u, sep) == [[p[0]] + rest[0]] + rest[1..];
      assert rest[0] == p[1..] + su[0] && rest[1..] == su[1..];
      assert [p[0]] + (p[1..] + su[0]) == p + su[0];
    }
  }

  /** The first piece ends at the first separator, and the others are the pieces of what follows it. */
  lemma {:induction false} SplitAtFirst(s: string, sep: char)
    ensures Split(s, sep)[0] == s[..IndexOf(s, sep)]
    ensures sep in s ==> Split(s, sep)[1..] == Split(s[IndexOf(s, sep) + 1..], sep)
    decreases |s|
  {
    if s != [] && s[0] != sep {
      var t := s[1..];
      SplitAtFirst(t, sep);
      var i := IndexOf(t, sep);
      assert IndexOf(s, sep) == i + 1;
      assert s[..i + 1] == [s[0]] + t[..i];
      if sep in s {
        assert sep in t;
        assert t[i + 1..] == s[i + 2..];
      }
    }
  }

  /** Splitting undoes joining, provided no piece holds the separator. */
  lemma {:induction false} SplitJoin(parts: seq<string>, sep: char)
    requires |parts| >= 1
    requires forall p <- parts :: sep !in p
    ensures Split(Join(parts, [sep]), sep) == parts
    decreases |parts|
  {
    var p := parts[0];
    assert sep !in p;
    if |parts| == 1 {
      SplitAfterPlain(p, [], sep);
      assert p + [] == p;
    } else {
      var tail := Join(parts[1..], [sep]);
      SplitJoin(parts[1..], sep);
      var u := [sep] + tail;
      assert Join(parts, [sep]) == p + u;
      SplitAfterPlain(p, u, sep);
      assert u[1..] == tail;
      assert Split(u, sep) == [[]] + parts[1..];
      assert Split(u, sep)[0] == [] && Split(u, sep)[1..] == parts[1..];
      assert p + [] == p;
      assert parts == [p] + parts[1..];
    }
  }

  function Digit(d: nat): (c: char)
    requires d < 10
    ensures '0' <= c <= '9'
  {
    (48 + d) as char
  }

  predicate IsDecimal(s: string) {
    forall k :: 0 <= k < |s| ==> '0' <= s[k] <= '9'
  }

  /** The text Python prints for a non-negative `int` in an f-string. */
  function NatToString(n: nat): (s: string)
    ensures |s| >= 1 && IsDecimal(s)
    ensures |s| > 1 ==> s[0] != '0'
  {
    if n < 10 then [Digit(n)]
    else NatToString(n / 10) + [Digit(n % 10)]
  }

  /** Reads a decimal numeral back. */
  function ParseDecimal(s: string): nat
    requires IsDecimal(s)
  {
    if s == [] then 0
    else
      assert IsDecimal(s[..|s| - 1]);
      ParseDecimal(s[..|s| - 1]) * 10 + (s[|s| - 1] as int - 48)
  }

  lemma {:induction false} NatToStringRoundTrip(n: nat)
    ensures ParseDecimal(NatToString(n)) == n
  {
    if n >= 10 {
      var s := NatToString(n);
      NatToStringRoundTrip(n / 10);
      assert s[..|s| - 1] == NatToString(n / 10);
    }
  }
}

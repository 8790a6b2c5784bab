/**
 * The Python `str` operations the plugin relies on, over `seq<char>`:
 * `startswith`, the substring test `p in s`, `strip()` and `split(sep)`.
 */
module PyStr {

  predicate StartsWith(s: string, prefix: string) {
    |prefix| <= |s| && s[..|prefix|] == prefix
  }

  /** `p` occurs in `s` starting at index `i`. */
  predicate OccursAt(s: string, p: string, i: int) {
    0 <= i && i + |p| <= |s| && s[i..i + |p|] == p
  }

  /** Python's `p in s` on strings. */
  predicate Contains(s: string, p: string) {
    exists i | 0 <= i <= |s| - |p| :: OccursAt(s, p, i)
  }

  /** Python's `str.isspace()` on one character. */
  predicate IsSpace(c: char) {
    || '\t' <= c <= '\r' || '\U{1C}' <= c <= ' '
    || c == '\U{85}' || c == '\U{A0}' || c == '\U{1680}'
    || '\U{2000}' <= c <= '\U{200A}' || c == '\U{2028}' || c == '\U{2029}'
    || c == '\U{202F}' || c == '\U{205F}' || c == '\U{3000}'
  }

  /** `s.lstrip()`: what remains of `s` once its leading whitespace is removed. */
  function TrimStart(s: string): (r: string)
    ensures |r| <= |s| && r == s[|s| - |r|..]
    ensures forall k | 0 <= k < |s| - |r| :: IsSpace(s[k])
    ensures r == [] || !IsSpace(r[0])
  {
    if |s| > 0 && IsSpace(s[0]) then TrimStart(s[1..]) else s
  }

  /** `s.rstrip()`: what remains of `s` once its trailing whitespace is removed. */
  function TrimEnd(s: string): (r: string)
    ensures |r| <= |s| && r == s[..|r|]
    ensures forall k | |r| <= k < |s| :: IsSpace(s[k])
    ensures r == [] || !IsSpace(r[|r| - 1])
  {
    if |s| > 0 && IsSpace(s[|s| - 1]) then TrimEnd(s[..|s| - 1]) else s
  }

  /** `s` is whitespace outside `s[i..i + |r|]`, which is `r`. */
  predicate StrippedAt(s: string, r: string, i: int) {
    && 0 <= i && i + |r| <= |s| && s[i..i + |r|] == r
    && (forall k | 0 <= k < i :: IsSpace(s[k]))
    && (forall k | i + |r| <= k < |s| :: IsSpace(s[k]))
  }

  /**
   * `s.strip()`: the part of `s` left once whitespace is removed at both
   * ends; it neither starts nor ends with whitespace.
   */
  function Strip(s: string): (r: string)
    ensures r == [] || (!IsSpace(r[0]) && !IsSpace(r[|r| - 1]))
    ensures StrippedAt(s, r, |s| - |TrimStart(s)|)
  {
    var t := TrimStart(s);
    var r := TrimEnd(t);
    TrimmedBothEnds(s, t, r);
    r
  }

  /** Trimming `s` at the start to `t`, then `t` at the end to `r`, leaves `r` at `|s| - |t|` in `s`. */
  lemma TrimmedBothEnds(s: string, t: string, r: string)
    requires |t| <= |s| && t == s[|s| - |t|..]
    requires forall k | 0 <= k < |s| - |t| :: IsSpace(s[k])
    requires |r| <= |t| && r == t[..|r|]
    requires forall k | |r| <= k < |t| :: IsSpace(t[k])
    ensures StrippedAt(s, r, |s| - |t|)
  {
    var i := |s| - |t|;
    forall k | i + |r| <= k < |s| ensures IsSpace(s[k]) {
      assert s[k] == t[k - i];
    }
    var middle := s[i..i + |r|];
    forall m | 0 <= m < |r| ensures middle[m] == r[m] {
      assert r[m] == t[m] == s[i + m];
    }
    assert middle == r;
  }

  /**
   * Stripping does not change whether a phrase occurs, as long as the phrase
   * neither starts nor ends with whitespace: every occurrence lies inside the
   * stripped part.
   */
  lemma StripKeepsContains(s: string, p: string)
    requires p != [] && !IsSpace(p[0]) && !IsSpace(p[|p| - 1])
    ensures Contains(Strip(s), p) <==> Contains(s, p)
  {
    StrippedKeepsContains(s, Strip(s), |s| - |TrimStart(s)|, p);
  }

  /** The same for any `u` that `s` holds at `i` with only whitespace around it. */
  lemma StrippedKeepsContains(s: string, u: string, i: int, p: string)
    requires StrippedAt(s, u, i)
    requires p != [] && !IsSpace(p[0]) && !IsSpace(p[|p| - 1])
    ensures Contains(u, p) <==> Contains(s, p)
  {
    var j := i + |u|;
    if Contains(u, p) {
      var k :| 0 <= k <= |u| - |p| && OccursAt(u, p, k);
      OccursInSlice(s, i, j, p, k);
    }
    if Contains(s, p) {
      var k :| 0 <= k <= |s| - |p| && OccursAt(s, p, k);
      OccursBetweenSpaces(s, i, j, p, k);
    }
  }

  /** An occurrence inside the slice `s[i..j]` is an occurrence in `s`. */
  lemma OccursInSlice(s: string, i: int, j: int, p: string, k: int)
    requires 0 <= i <= j <= |s| && OccursAt(s[i..j], p, k)
    ensures Contains(s, p)
  {
    assert k + |p| <= j - i;
    var whole, inner := s[i + k..i + k + |p|], s[i..j][k..k + |p|];
    forall m | 0 <= m < |p| ensures whole[m] == inner[m] {
      assert whole[m] == s[i + k + m];
    }
    assert whole == inner;
    assert OccursAt(s, p, i + k);
  }

  /**
   * An occurrence in `s` of a phrase with non-space ends, where `s` is
   * whitespace outside `s[i..j]`, lies inside `s[i..j]`.
   */
  lemma OccursBetweenSpaces(s: string, i: int, j: int, p: string, k: int)
    requires 0 <= i <= j <= |s|
    requires forall m | 0 <= m < i :: IsSpace(s[m])
    requires forall m | j <= m < |s| :: IsSpace(s[m])
    requires p != [] && !IsSpace(p[0]) && !IsSpace(p[|p| - 1])
    requires OccursAt(s, p, k)
    ensures Contains(s[i..j], p)
  {
    assert s[k] == s[k..k + |p|][0] == p[0];
    assert s[k + |p| - 1] == s[k..k + |p|][|p| - 1] == p[|p| - 1];
    assert i <= k && k + |p| <= j;
    var inner, whole := s[i..j][k - i..k - i + |p|], s[k..k + |p|];
    forall m | 0 <= m < |p| ensures inner[m] == whole[m] {
      assert whole[m] == s[k + m];
    }
    assert inner == whole;
    assert OccursAt(s[i..j], p, k - i);
  }

  /** Python's `s.split(sep)` for a one-character separator. */
  function Split(s: string, sep: char): (parts: seq<string>)
    ensures |parts| >= 1
    ensures forall k | 0 <= k < |parts| :: sep !in parts[k]
  {
    if s == [] then [[]]
    else
      var rest := Split(s[1..], sep);
      if s[0] == sep then [[]] + rest
      else [[s[0]] + rest[0]] + rest[1..]
  }

  /** Python's `sep.join(parts)`. */
  function Join(parts: seq<string>, sep: char): string
    requires |parts| >= 1
  {
    if |parts| == 1 then parts[0] else parts[0] + [sep] + Join(parts[1..], sep)
  }

  /** Joining the pieces of a split with the same separator gives back the string. */
  lemma {:induction false} JoinSplit(s: string, sep: char)
    ensures Join(Split(s, sep), sep) == s
  {
    if s != [] {
      var rest := Split(s[1..], sep);
      JoinSplit(s[1..], sep);
      var parts := Split(s, sep);
      if s[0] == sep {
        assert parts[1..] == rest;
      } else if |rest| == 1 {
        assert parts == [[s[0]] + rest[0]];
      } else {
        assert parts[1..] == rest[1..];
        calc {
          Join(parts, sep);
          ([s[0]] + rest[0]) + [sep] + Join(rest[1..], sep);
          [s[0]] + (rest[0] + [sep] + Join(rest[1..], sep));
          [s[0]] + Join(rest, sep);
          [s[0]] + s[1..];
          s;
        }
      }
    }
  }

  /** A join of two or more pieces ends with the separator and the last piece. */
  lemma {:induction false} JoinLast(parts: seq<string>, sep: char)
    requires |parts| >= 2
    ensures Join(parts, sep) == Join(parts[..|parts| - 1], sep) + [sep] + parts[|parts| - 1]
  {
    if |parts| > 2 {
      JoinLast(parts[1..], sep);
      assert parts[1..][..|parts| - 2] == parts[..|parts| - 1][1..];
    }
  }
}

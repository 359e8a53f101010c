/**
 * The string operations of Rust's `str` that the cleaner relies on:
 * prefix and substring tests, searching for a character, splitting on a
 * separator and trimming. Strings are sequences of characters.
 */
module Text {
  import opened Wrappers

  /** `s.starts_with(p)`. */
  predicate StartsWith(s: string, p: string)
  {
    |p| <= |s| && s[..|p|] == p
  }

  /** `p` occurs in `s` starting at offset `k`. */
  predicate OccursAt(s: string, p: string, k: int)
  {
    0 <= k && k + |p| <= |s| && s[k..k + |p|] == p
  }

  /** `s.contains(p)`, searching from the front. */
  function Contains(s: string, p: string): (r: bool)
    ensures StartsWith(s, p) ==> r
    ensures r ==> |p| <= |s|
    decreases |s|
  {
    if StartsWith(s, p) then true
    else if s == [] then false
    else Contains(s[1..], p)
  }

  /** `Contains` holds exactly when `p` occurs somewhere in `s`. */
  lemma {:induction false} ContainsIff(s: string, p: string)
    ensures Contains(s, p) <==> exists k :: OccursAt(s, p, k)
    decreases |s|
  {
    OccursAtZero(s, p);
    if StartsWith(s, p) {
      assert OccursAt(s, p, 0);
    } else if s != [] {
      ContainsIff(s[1..], p);
      if Contains(s[1..], p) {
        var k :| OccursAt(s[1..], p, k);
        OccursAtShift(s, p, k + 1);
      } else {
        forall k | OccursAt(s, p, k) ensures false {
          if k != 0 {
            OccursAtShift(s, p, k);
          }
        }
      }
    }
  }

  /** An occurrence past the first character is an occurrence in the rest. */
  lemma OccursAtShift(s: string, p: string, k: int)
    requires s != [] && 0 < k
    ensures OccursAt(s, p, k) <==> OccursAt(s[1..], p, k - 1)
  {
    if k + |p| <= |s| {
      assert s[1..][k - 1..k - 1 + |p|] == s[k..k + |p|];
    }
  }

  lemma OccursAtZero(s: string, p: string)
    ensures OccursAt(s, p, 0) <==> StartsWith(s, p)
  {
    if |p| <= |s| {
      assert s[0..|p|] == s[..|p|];
    }
  }

  /** Contains finds `p` wherever it occurs. */
  lemma OccursAtContains(s: string, p: string, k: int)
    requires OccursAt(s, p, k)
    ensures Contains(s, p)
  {
    ContainsIff(s, p);
  }

  lemma StartsWithContains(s: string, p: string)
    requires StartsWith(s, p)
    ensures Contains(s, p)
  {
  }

  /** `s.chars().nth(n)`. */
  function NthChar(s: string, n: int): Option<char>
  {
    if 0 <= n < |s| then Some(s[n]) else None
  }

  /** Position of the first occurrence of `c` in `s`. */
  function IndexOf(s: string, c: char): (r: Option<nat>)
    ensures r.None? <==> c !in s
    ensures r.Some? ==> r.value < |s| && s[r.value] == c && c !in s[..r.value]
  {
    if s == [] then None
    else if s[0] == c then Some(0)
    else
      match IndexOf(s[1..], c)
      case None => None
      case Some(k) =>
        assert s[..k + 1] == [s[0]] + s[1..][..k];
        Some(k + 1)
  }

  /** Position of the last occurrence of `c` in `s`. */
  function LastIndexOf(s: string, c: char): (r: Option<nat>)
    ensures r.None? <==> c !in s
    ensures r.Some? ==> r.value < |s| && s[r.value] == c && c !in s[r.value + 1..]
  {
    if s == [] then None
    else if s[|s| - 1] == c then Some(|s| - 1)
    else
      var r := LastIndexOf(s[..|s| - 1], c);
      assert s == s[..|s| - 1] + [s[|s| - 1]];
      if r.Some? then
        assert s[r.value + 1..] == s[..|s| - 1][r.value + 1..] + [s[|s| - 1]];
        r
      else
        r
  }

  /**
   * `field` is the second field of `s` split on `sep`: it starts just after
   * the first `sep` (at index `i`) and runs to the next `sep` or the end.
   */
  predicate SecondFieldAt(s: string, sep: char, i: int, field: string)
  {
    && 0 <= i < |s| && s[i] == sep && sep !in s[..i]
    && i + 1 + |field| <= |s| && s[i + 1..i + 1 + |field|] == field && sep !in field
    && (i + 1 + |field| == |s| || s[i + 1 + |field|] == sep)
  }

  /** `s.split(sep).nth(1)`. */
  function SecondField(s: string, sep: char): (r: Option<string>)
    ensures r.None? <==> sep !in s
    ensures r.Some? ==> exists i :: SecondFieldAt(s, sep, i, r.value)
  {
    match IndexOf(s, sep)
    case None => None
    case Some(i) =>
      var rest := s[i + 1..];
      var field := match IndexOf(rest, sep) case None => rest case Some(j) => rest[..j];
      assert s[i + 1..i + 1 + |field|] == field;
      assert SecondFieldAt(s, sep, i, field);
      Some(field)
  }

  /** `char::is_whitespace`: the Unicode White_Space characters. */
  predicate IsWhitespace(c: char)
  {
    || ('\t' <= c <= '\r') || c == ' ' || c == '\U{85}' || c == '\U{A0}' || c == '\U{1680}'
    || ('\U{2000}' <= c <= '\U{200A}') || c == '\U{2028}' || c == '\U{2029}'
    || c == '\U{202F}' || c == '\U{205F}' || c == '\U{3000}'
  }

  /** The character patterns the cleaner trims by. */
  datatype CharPattern = Whitespace | Exactly(ch: char)

  predicate Matches(m: CharPattern, c: char)
  {
    match m
    case Whitespace => IsWhitespace(c)
    case Exactly(x) => c == x
  }

  /** `s.trim_start_matches(m)`: drop matching characters from the front. */
  function TrimStartMatches(s: string, m: CharPattern): string
  {
    if s != [] && Matches(m, s[0]) then TrimStartMatches(s[1..], m) else s
  }

  /** `s.trim_end_matches(m)`: drop matching characters from the back. */
  function TrimEndMatches(s: string, m: CharPattern): string
  {
    if s != [] && Matches(m, s[|s| - 1]) then TrimEndMatches(s[..|s| - 1], m) else s
  }

  /** Trimming the front keeps the longest suffix that does not start with a match. */
  lemma {:induction false} TrimStartMatchesIsSuffix(s: string, m: CharPattern)
    ensures var r := TrimStartMatches(s, m);
            && |r| <= |s| && r == s[|s| - |r|..]
            && (forall i :: 0 <= i < |s| - |r| ==> Matches(m, s[i]))
            && (r != [] ==> !Matches(m, r[0]))
  {
    if s != [] && Matches(m, s[0]) {
      var t := s[1..];
      TrimStartMatchesIsSuffix(t, m);
      var r := TrimStartMatches(t, m);
      assert TrimStartMatches(s, m) == r;
      assert t[|t| - |r|..] == s[|s| - |r|..];
      forall i | 0 <= i < |s| - |r|
        ensures Matches(m, s[i])
      {
        if i > 0 {
          assert s[i] == t[i - 1];
        }
      }
    }
  }

  /** Trimming the back keeps the longest prefix that does not end with a match. */
  lemma {:induction false} TrimEndMatchesIsPrefix(s: string, m: CharPattern)
    ensures var r := TrimEndMatches(s, m);
            && |r| <= |s| && r == s[..|r|]
            && (forall i :: |r| <= i < |s| ==> Matches(m, s[i]))
            && (r != [] ==> !Matches(m, r[|r| - 1]))
  {
    if s != [] && Matches(m, s[|s| - 1]) {
      TrimEndMatchesIsPrefix(s[..|s| - 1], m);
    }
  }

  /** `s.trim_matches(m)`: matches removed from both ends. */
  function TrimMatches(s: string, m: CharPattern): string
  {
    TrimEndMatches(TrimStartMatches(s, m), m)
  }

  /** `s.trim()`: never longer, and with no whitespace left at either end. */
  function Trim(s: string): (r: string)
    ensures |r| <= |s|
    ensures r != [] ==> !IsWhitespace(r[0]) && !IsWhitespace(r[|r| - 1])
  {
    TrimStartMatchesIsSuffix(s, Whitespace);
    TrimEndMatchesIsPrefix(TrimStartMatches(s, Whitespace), Whitespace);
    TrimMatches(s, Whitespace)
  }

  /**
   * Trimming keeps a contiguous middle part of `s`: everything cut off
   * matches the pattern, and the part kept neither starts nor ends with a match.
   */
  lemma TrimMatchesIsMiddle(s: string, m: CharPattern) returns (i: nat, j: nat)
    ensures i <= j <= |s| && TrimMatches(s, m) == s[i..j]
    ensures forall k :: 0 <= k < i || j <= k < |s| ==> Matches(m, s[k])
    ensures i < j ==> !Matches(m, s[i]) && !Matches(m, s[j - 1])
  {
    var a := TrimStartMatches(s, m);
    TrimStartMatchesIsSuffix(s, m);
    var b := TrimEndMatches(a, m);
    TrimEndMatchesIsPrefix(a, m);
    i := |s| - |a|;
    j := i + |b|;
    assert a == s[i..];
    assert b == a[..|b|];
    assert a[..|b|] == s[i..j];
    forall k | j <= k < |s| ensures Matches(m, s[k]) {
      assert s[k] == a[k - i];
    }
    if i < j {
      assert s[i] == b[0] && s[j - 1] == b[|b| - 1];
    }
  }

}

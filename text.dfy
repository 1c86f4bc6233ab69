/**
 * The string operations the core relies on: `String.prototype.includes`,
 * the capture group of `endpoint.match(/<marker>([^&]+)/)?.[1]`,
 * `toLowerCase` on ASCII letters, the truthiness of `trim()`, and the
 * decimal rendering of a number inside a template literal.
 */
module Text {
  import opened Options

  /** w occurs in s starting at index i. */
  ghost predicate OccursAt(s: string, w: string, i: int)
  {
    0 <= i && i + |w| <= |s| && s[i..i + |w|] == w
  }

  function ContainsFrom(s: string, w: string, i: nat): (r: bool)
    ensures r <==> exists j :: i <= j && OccursAt(s, w, j)
    decreases |s| - i
  {
    if i + |w| > |s| then false
    else if s[i..i + |w|] == w then assert OccursAt(s, w, i); true
    else ContainsFrom(s, w, i + 1)
  }

  /** `s.includes(w)`. */
  function Contains(s: string, w: string): (r: bool)
    ensures r <==> exists j :: OccursAt(s, w, j)
  {
    ContainsFrom(s, w, 0)
  }

  /** A word containing a character that s lacks does not occur in s. */
  lemma MissingCharNotContained(s: string, w: string, c: char)
    requires c in w && c !in s
    ensures !Contains(s, w)
  {
    var k :| 0 <= k < |w| && w[k] == c;
    forall j | 0 <= j ensures !OccursAt(s, w, j) {
      if j + |w| <= |s| {
        assert s[j..j + |w|][k] == s[j + k];
        assert s[j + k] in s;
      }
    }
  }

  /** An occurrence in a prefix is an occurrence in any extension of it. */
  lemma ContainedInExtension(p: string, w: string, rest: string)
    requires Contains(p, w)
    ensures Contains(p + rest, w)
  {
    var j :| OccursAt(p, w, j);
    assert (p + rest)[j..j + |w|] == p[j..j + |w|];
    assert OccursAt(p + rest, w, j);
  }

  /** No character of s is one of cs. */
  ghost predicate Lacks(s: string, cs: string)
  {
    forall i :: 0 <= i < |s| ==> s[i] !in cs
  }

  /** A word whose k-th character is one of the characters s lacks does not occur in s. */
  lemma LackingWord(s: string, cs: string, w: string, k: nat)
    requires Lacks(s, cs) && k < |w| && w[k] in cs
    ensures !Contains(s, w)
  {
    assert w[k] in w;
    MissingCharNotContained(s, w, w[k]);
  }

  lemma LacksConcat(a: string, b: string, cs: string)
    requires Lacks(a, cs) && Lacks(b, cs)
    ensures Lacks(a + b, cs)
  {
    forall i | 0 <= i < |a + b| ensures (a + b)[i] !in cs {
      if i < |a| { assert (a + b)[i] == a[i]; } else { assert (a + b)[i] == b[i - |a|]; }
    }
  }

  /** A decimal numeral lacks every character that is neither a digit nor '-'. */
  lemma LacksNumeral(n: int, cs: string)
    requires forall i :: 0 <= i < |cs| ==> cs[i] != '-' && !('0' <= cs[i] <= '9')
    ensures Lacks(IntToString(n), cs)
  {
    var r := IntToString(n);
    forall i | 0 <= i < |r| ensures r[i] !in cs {
      assert r[i] == '-' || '0' <= r[i] <= '9';
    }
  }

  /** No two adjacent characters of s are c0 followed by c1. */
  ghost predicate NoPair(s: string, c0: char, c1: char)
  {
    forall i :: 0 <= i < |s| - 1 ==> !(s[i] == c0 && s[i + 1] == c1)
  }

  lemma NoPairConcat(a: string, b: string, c0: char, c1: char)
    requires NoPair(a, c0, c1) && NoPair(b, c0, c1)
    requires a == [] || b == [] || !(a[|a| - 1] == c0 && b[0] == c1)
    ensures NoPair(a + b, c0, c1)
  {
    var s := a + b;
    forall i | 0 <= i < |s| - 1 ensures !(s[i] == c0 && s[i + 1] == c1) {
      if i + 1 < |a| {
        assert s[i] == a[i] && s[i + 1] == a[i + 1];
      } else if i >= |a| {
        assert s[i] == b[i - |a|] && s[i + 1] == b[i + 1 - |a|];
      }
    }
  }

  /** A word with two adjacent characters that are never adjacent in s does not occur in s. */
  lemma PairNotContained(s: string, w: string, k: nat)
    requires k + 1 < |w| && NoPair(s, w[k], w[k + 1])
    ensures !Contains(s, w)
  {
    forall j | 0 <= j ensures !OccursAt(s, w, j) {
      if j + |w| <= |s| {
        assert s[j..j + |w|][k] == s[j + k];
        assert s[j..j + |w|][k + 1] == s[j + k + 1];
      }
    }
  }

  /** A string lacking c0 has no pair starting with c0. */
  lemma LacksNoPair(s: string, cs: string, c0: char, c1: char)
    requires Lacks(s, cs) && c0 in cs
    ensures NoPair(s, c0, c1)
  {
  }

  /**
   * The pair c0 c1 cannot straddle or enter a value that lacks c0, placed
   * after a piece that does not end with c0.
   */
  lemma NoPairPlaced(p: string, v: string, r: string, c0: char, c1: char)
    requires p != [] && p[|p| - 1] != c0 && Lacks(v, [c0])
    requires NoPair(p, c0, c1) && NoPair(r, c0, c1)
    ensures NoPair(p + v + r, c0, c1)
  {
    var s := p + v + r;
    forall i | 0 <= i < |s| - 1 ensures !(s[i] == c0 && s[i + 1] == c1) {
      if i < |p| - 1 {
        assert s[i] == p[i] && s[i + 1] == p[i + 1];
      } else if i == |p| - 1 {
        assert s[i] == p[|p| - 1];
      } else if i < |p| + |v| {
        assert s[i] == v[i - |p|];
      } else {
        assert s[i] == r[i - |p| - |v|] && s[i + 1] == r[i + 1 - |p| - |v|];
      }
    }
  }

  /**
   * A word absent from three pieces is absent from their concatenation when
   * the characters at the two seams do not occur in it.
   */
  lemma NotContainedInPlaced(p: string, v: string, rest: string, w: string)
    requires p != [] && p[|p| - 1] !in w
    requires rest == [] || rest[0] !in w
    requires !Contains(p, w) && !Contains(v, w) && !Contains(rest, w)
    ensures !Contains(p + v + rest, w)
  {
    var s := p + v + rest;
    forall j | 0 <= j ensures !OccursAt(s, w, j) {
      if j + |w| <= |s| {
        var o := s[j..j + |w|];
        if j + |w| <= |p| {
          assert o == p[j..j + |w|];
          assert !OccursAt(p, w, j);
        } else if j < |p| {
          assert o[|p| - 1 - j] == p[|p| - 1];
        } else if j + |w| <= |p| + |v| {
          assert o == v[j - |p|..j - |p| + |w|];
          assert !OccursAt(v, w, j - |p|);
        } else if j < |p| + |v| {
          assert o[|p| + |v| - j] == rest[0];
        } else {
          assert o == rest[j - |p| - |v|..j - |p| - |v| + |w|];
          assert !OccursAt(rest, w, j - |p| - |v|);
        }
      }
    }
  }

  /** An occurrence inside the middle piece is an occurrence in the whole. */
  lemma ContainedInMiddle(p: string, v: string, rest: string, w: string)
    requires Contains(v, w)
    ensures Contains(p + v + rest, w)
  {
    var j :| OccursAt(v, w, j);
    assert (p + v + rest)[|p| + j..|p| + j + |w|] == v[j..j + |w|];
    assert OccursAt(p + v + rest, w, |p| + j);
  }

  /** The longest run of non-'&' characters starting at index j: what `[^&]+` consumes greedily. */
  function RunFrom(s: string, j: nat): (r: string)
    requires j <= |s|
    ensures j + |r| <= |s| && r == s[j..j + |r|]
    ensures '&' !in r
    ensures j + |r| == |s| || s[j + |r|] == '&'
    decreases |s| - j
  {
    if j == |s| || s[j] == '&' then []
    else [s[j]] + RunFrom(s, j + 1)
  }

  /** `marker([^&]+)` can match starting at index i: the marker, then at least one non-'&'. */
  ghost predicate MatchStart(s: string, marker: string, i: int)
  {
    OccursAt(s, marker, i) && i + |marker| < |s| && s[i + |marker|] != '&'
  }

  /** The regular expression engine's scan for a match start: the first one from i on, or -1. */
  function MatchFrom(s: string, marker: string, i: nat): (r: int)
    ensures r == -1 || (i <= r && MatchStart(s, marker, r))
    decreases |s| - i
  {
    if i + |marker| >= |s| then -1
    else if s[i..i + |marker|] == marker && s[i + |marker|] != '&' then i
    else MatchFrom(s, marker, i + 1)
  }

  /** The scan passes over no match start on its way. */
  lemma {:induction false} MatchFromFirst(s: string, marker: string, i: nat, k: nat)
    requires i <= k && (MatchFrom(s, marker, i) == -1 || k < MatchFrom(s, marker, i))
    ensures !MatchStart(s, marker, k)
    decreases |s| - i
  {
    if i + |marker| < |s| && !(s[i..i + |marker|] == marker && s[i + |marker|] != '&') && i < k {
      MatchFromFirst(s, marker, i + 1, k);
    }
  }

  /** Scanning from i reaches the first match start j at or after i. */
  lemma {:induction false} MatchFromReaches(s: string, marker: string, i: nat, j: nat)
    requires i <= j && MatchStart(s, marker, j)
    requires forall k :: i <= k < j ==> !MatchStart(s, marker, k)
    ensures MatchFrom(s, marker, i) == j
    decreases j - i
  {
    if i < j {
      assert !MatchStart(s, marker, i);
      MatchFromReaches(s, marker, i + 1, j);
    } else {
      assert s[i..i + |marker|] == marker;
    }
  }

  /**
   * `s.match(/<marker>([^&]+)/)?.[1]`: the regular expression engine tries
   * start positions from the left, so the capture belongs to the leftmost
   * occurrence of the marker that is followed by a non-'&' character, and
   * the greedy group takes the whole run up to the next '&' or the end.
   */
  function Capture(s: string, marker: string): (r: Option<string>)
    ensures r.Some? ==> r.value != [] && '&' !in r.value
  {
    var j := MatchFrom(s, marker, 0);
    if j < 0 then None else Some(RunFrom(s, j + |marker|))
  }

  /**
   * The capture is absent exactly when the marker never matches; otherwise it
   * is the maximal non-'&' run after the leftmost match start.
   */
  lemma CaptureSpec(s: string, marker: string)
    ensures Capture(s, marker).None? <==> forall k :: !MatchStart(s, marker, k)
    ensures Capture(s, marker).Some? ==>
              var j := MatchFrom(s, marker, 0);
              && MatchStart(s, marker, j)
              && (forall k :: 0 <= k < j ==> !MatchStart(s, marker, k))
              && Capture(s, marker).value == RunFrom(s, j + |marker|)
  {
    var j := MatchFrom(s, marker, 0);
    forall k | 0 <= k && (j == -1 || k < j) ensures !MatchStart(s, marker, k) {
      MatchFromFirst(s, marker, 0, k);
    }
    assert forall k :: MatchStart(s, marker, k) ==> 0 <= k;
  }

  /** A marker whose first two characters are never adjacent early in p cannot match there. */
  lemma EarlyMarkerAbsent(p: string, marker: string, rest: string)
    requires |marker| >= 2 && |p| >= |marker|
    requires NoPair(p[..|p| - |marker| + 1], marker[0], marker[1])
    ensures forall k :: 0 <= k < |p| - |marker| ==> !MatchStart(p + rest, marker, k)
  {
    var q := p[..|p| - |marker| + 1];
    forall k | 0 <= k < |p| - |marker| ensures !MatchStart(p + rest, marker, k) {
      var o := (p + rest)[k..k + |marker|];
      if k + |marker| <= |p + rest| {
        assert o[0] == q[k] && o[1] == q[k + 1];
      }
    }
  }

  /**
   * When the first match start is the marker that ends p, v is a non-empty run
   * without '&' and what follows starts with '&' or is empty, the capture is exactly v.
   */
  lemma CaptureOfPlacedValue(p: string, marker: string, v: string, rest: string)
    requires v != [] && '&' !in v
    requires rest == [] || rest[0] == '&'
    requires |p| >= |marker| && MatchFrom(p + v + rest, marker, 0) == |p| - |marker|
    ensures Capture(p + v + rest, marker) == Some(v)
  {
    RunOfPlacedValue(p, v, rest);
  }

  /** When the marker ends p and nothing earlier can match, the scan stops there. */
  lemma FirstMatchAtSeam(p: string, marker: string, v: string, rest: string)
    requires v != [] && '&' !in v
    requires |p| >= |marker| && p[|p| - |marker|..] == marker
    requires forall k :: 0 <= k < |p| - |marker| ==> !MatchStart(p + v + rest, marker, k)
    ensures MatchFrom(p + v + rest, marker, 0) == |p| - |marker|
  {
    MatchAtSeam(p, marker, v, rest);
    MatchFromReaches(p + v + rest, marker, 0, |p| - |marker|);
  }

  /** A marker that ends p, followed by a non-'&' value, matches where it starts. */
  lemma MatchAtSeam(p: string, marker: string, v: string, rest: string)
    requires v != [] && '&' !in v
    requires |p| >= |marker| && p[|p| - |marker|..] == marker
    ensures MatchStart(p + v + rest, marker, |p| - |marker|)
  {
    var s := p + v + rest;
    var i := |p| - |marker|;
    assert s[i..i + |marker|] == p[i..];
    assert s[i + |marker|] == v[0];
  }

  /** A string in which the marker never occurs yields no capture. */
  lemma CaptureWithoutMarker(s: string, marker: string)
    requires !Contains(s, marker)
    ensures Capture(s, marker) == None
  {
    CaptureSpec(s, marker);
  }

  /** A stretch of n non-'&' characters ending at '&' or at the end is the whole run. */
  lemma {:induction false} RunFromStretch(s: string, j: nat, n: nat)
    requires j + n <= |s|
    requires forall m :: j <= m < j + n ==> s[m] != '&'
    requires j + n == |s| || s[j + n] == '&'
    ensures RunFrom(s, j) == s[j..j + n]
    decreases n
  {
    if n > 0 {
      RunFromStretch(s, j + 1, n - 1);
      assert s[j..j + n] == [s[j]] + s[j + 1..j + n];
    }
  }

  lemma RunOfPlacedValue(p: string, v: string, rest: string)
    requires '&' !in v
    requires rest == [] || rest[0] == '&'
    ensures RunFrom(p + v + rest, |p|) == v
  {
    var s := p + v + rest;
    forall m | |p| <= m < |p| + |v| ensures s[m] != '&' {
      assert s[m] == v[m - |p|];
    }
    assert |p| + |v| == |s| || s[|p| + |v|] == rest[0];
    RunFromStretch(s, |p|, |v|);
    assert s[|p|..|p| + |v|] == v;
  }

  /** `c.toLowerCase()` for ASCII letters; other characters are left alone. */
  function LowerChar(c: char): char
  {
    if 'A' <= c <= 'Z' then (c as int + 32) as char else c
  }

  /** `s.toLowerCase()`, ASCII letters only. */
  function Lower(s: string): (r: string)
    ensures |r| == |s|
    ensures forall i :: 0 <= i < |s| ==> r[i] == LowerChar(s[i])
  {
    if s == [] then [] else [LowerChar(s[0])] + Lower(s[1..])
  }

  /** The characters `String.prototype.trim` removes: ECMAScript WhiteSpace and LineTerminator. */
  predicate IsTrimmable(c: char)
  {
    var n := c as int;
    n == 0x09 || n == 0x0A || n == 0x0B || n == 0x0C || n == 0x0D || n == 0x20 || n == 0xA0
    || n == 0x1680 || (0x2000 <= n <= 0x200A) || n == 0x2028 || n == 0x2029 || n == 0x202F
    || n == 0x205F || n == 0x3000 || n == 0xFEFF
  }

  /** `s.trim()` is the empty, falsy string. */
  predicate IsBlank(s: string)
  {
    forall i :: 0 <= i < |s| ==> IsTrimmable(s[i])
  }

  function DigitChar(d: nat): (c: char)
    requires d < 10
    ensures '0' <= c <= '9'
  {
    "0123456789"[d]
  }

  function NatToString(n: nat): (r: string)
    ensures |r| >= 1
    ensures forall i :: 0 <= i < |r| ==> '0' <= r[i] <= '9'
    decreases n
  {
    if n < 10 then [DigitChar(n)] else NatToString(n / 10) + [DigitChar(n % 10)]
  }

  /** `${n}` for an integer n. */
  function IntToString(n: int): (r: string)
    ensures forall i :: 0 <= i < |r| ==> r[i] == '-' || '0' <= r[i] <= '9'
  {
    if n < 0 then "-" + NatToString(-n) else NatToString(n)
  }

  /** `parts.join(sep)`. */
  function Join(parts: seq<string>, sep: string): string
  {
    if parts == [] then "" else if |parts| == 1 then parts[0] else parts[0] + sep + Join(parts[1..], sep)
  }
}

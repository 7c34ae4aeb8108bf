/**
 * The JavaScript string operations the request builder relies on:
 * `indexOf`, `split` with a non-empty separator, `join`, and the
 * decimal rendering of a non-negative number in string concatenation.
 */
module Text {

  /** `pat` occurs in `s` starting at index `i`. */
  predicate OccursAt(s: string, pat: string, i: nat) {
    i + |pat| <= |s| && s[i..i + |pat|] == pat
  }

  /** `pat` occurs somewhere in `s`. */
  ghost predicate Occurs(s: string, pat: string) {
    exists i: nat :: OccursAt(s, pat, i)
  }

  /** `s.indexOf(pat, from)`: the first occurrence at or after `from`, or -1. */
  function IndexOfFrom(s: string, pat: string, from: nat): (r: int)
    ensures r == -1 || (from <= r && OccursAt(s, pat, r))
    ensures r == -1 ==> forall i: nat :: from <= i ==> !OccursAt(s, pat, i)
    ensures r != -1 ==> forall i: nat :: from <= i < r ==> !OccursAt(s, pat, i)
    decreases |s| - from
  {
    if from + |pat| > |s| then -1
    else if OccursAt(s, pat, from) then from
    else IndexOfFrom(s, pat, from + 1)
  }

  /** `s.indexOf(pat)`: the leftmost occurrence of `pat`, or -1 when there is none. */
  function IndexOf(s: string, pat: string): (r: int)
    ensures -1 <= r
    ensures r >= 0 <==> Occurs(s, pat)
    ensures r >= 0 ==> OccursAt(s, pat, r) && forall i: nat :: i < r ==> !OccursAt(s, pat, i)
  {
    IndexOfFrom(s, pat, 0)
  }

  /**
   * `s.split(sep)` for a non-empty separator: the pieces between the
   * leftmost non-overlapping occurrences of `sep`, scanning left to right.
   */
  function Split(s: string, sep: string): (parts: seq<string>)
    requires |sep| > 0
    ensures |parts| >= 1 && parts[0] <= s
    decreases |s|
  {
    if |s| < |sep| then [s]
    else if s[..|sep|] == sep then [""] + Split(s[|sep|..], sep)
    else
      var rest := Split(s[1..], sep);
      [[s[0]] + rest[0]] + rest[1..]
  }

  /** `parts.join(sep)`; the empty array joins to the empty string. */
  function Join(parts: seq<string>, sep: string): (s: string)
    ensures |parts| > 0 ==> parts[0] <= s
  {
    if |parts| == 0 then ""
    else if |parts| == 1 then parts[0]
    else parts[0] + sep + Join(parts[1..], sep)
  }

  /** `s.split(pat).join(rep)`. */
  function ReplaceAll(s: string, pat: string, rep: string): string
    requires |pat| > 0
  {
    Join(Split(s, pat), rep)
  }

  lemma JoinPrepend(c: char, parts: seq<string>, sep: string)
    requires |parts| >= 1
    ensures Join([[c] + parts[0]] + parts[1..], sep) == [c] + Join(parts, sep)
  {
    var ps := [[c] + parts[0]] + parts[1..];
    if |parts| > 1 {
      assert ps[1..] == parts[1..];
    }
  }

  /** Splitting and joining back with the same separator gives the original string. */
  lemma {:induction false} JoinSplit(s: string, sep: string)
    requires |sep| > 0
    ensures Join(Split(s, sep), sep) == s
    decreases |s|
  {
    if |s| < |sep| {
    } else if s[..|sep|] == sep {
      var rest := Split(s[|sep|..], sep);
      JoinSplit(s[|sep|..], sep);
      assert ([""] + rest)[1..] == rest;
      assert s == sep + s[|sep|..];
    } else {
      var rest := Split(s[1..], sep);
      JoinSplit(s[1..], sep);
      JoinPrepend(s[0], rest, sep);
      assert s == [s[0]] + s[1..];
    }
  }

  lemma HeadFree(s: string, sep: string, tail: string)
    requires |sep| > 0 && |s| >= |sep| && s[..|sep|] != sep
    requires tail <= s[1..] && !Occurs(tail, sep)
    ensures !Occurs([s[0]] + tail, sep)
  {
    var h := [s[0]] + tail;
    assert h <= s;
    forall i: nat
      ensures !OccursAt(h, sep, i)
    {
      if i == 0 {
        if |sep| <= |h| {
          assert h[..|sep|] == s[..|sep|];
        }
      } else if i + |sep| <= |h| {
        assert h[i..i + |sep|] == tail[i - 1..i - 1 + |sep|];
        assert !OccursAt(tail, sep, i - 1);
      }
    }
  }

  /** No piece produced by `Split` contains the separator. */
  lemma {:induction false} SplitPiecesFree(s: string, sep: string)
    requires |sep| > 0
    ensures forall k :: 0 <= k < |Split(s, sep)| ==> !Occurs(Split(s, sep)[k], sep)
    decreases |s|
  {
    var parts := Split(s, sep);
    if |s| < |sep| {
      assert parts == [s];
      assert forall i: nat :: !OccursAt(s, sep, i);
    } else if s[..|sep|] == sep {
      var rest := Split(s[|sep|..], sep);
      SplitPiecesFree(s[|sep|..], sep);
      assert parts == [""] + rest;
      forall k | 0 <= k < |parts|
        ensures !Occurs(parts[k], sep)
      {
        if k == 0 {
          assert forall i: nat :: !OccursAt("", sep, i);
        } else {
          assert parts[k] == rest[k - 1];
        }
      }
    } else {
      var rest := Split(s[1..], sep);
      SplitPiecesFree(s[1..], sep);
      assert parts == [[s[0]] + rest[0]] + rest[1..];
      forall k | 0 <= k < |parts|
        ensures !Occurs(parts[k], sep)
      {
        if k == 0 {
          HeadFree(s, sep, rest[0]);
        } else {
          assert parts[k] == rest[k];
        }
      }
    }
  }

  /** A string without the separator splits into itself alone. */
  lemma {:induction false} SplitNoOccurrence(s: string, sep: string)
    requires |sep| > 0 && !Occurs(s, sep)
    ensures Split(s, sep) == [s]
    decreases |s|
  {
    if |s| >= |sep| {
      assert !OccursAt(s, sep, 0);
      forall i: nat
        ensures !OccursAt(s[1..], sep, i)
      {
        if i + |sep| <= |s| - 1 {
          assert s[1..][i..i + |sep|] == s[i + 1..i + 1 + |sep|];
          assert !OccursAt(s, sep, i + 1);
        }
      }
      SplitNoOccurrence(s[1..], sep);
      assert [s[0]] + s[1..] == s;
    }
  }

  /** `split` cuts the string at least once exactly when the separator occurs in it. */
  lemma SplitCutsIffOccurs(s: string, sep: string)
    requires |sep| > 0
    ensures |Split(s, sep)| > 1 <==> Occurs(s, sep)
  {
    if !Occurs(s, sep) {
      SplitNoOccurrence(s, sep);
    } else {
      var parts := Split(s, sep);
      JoinSplit(s, sep);
      SplitPiecesFree(s, sep);
      var first := parts[0];
      assert Join([first], sep) == first;
      assert !Occurs(first, sep);
    }
  }

  /** Dropping the first character moves every occurrence one place to the left. */
  lemma OccursAtShift(s: string, sep: string, j: nat)
    requires |s| > 0
    ensures OccursAt(s[1..], sep, j) <==> OccursAt(s, sep, j + 1)
  {
    if j + |sep| <= |s| - 1 {
      assert s[1..][j..j + |sep|] == s[j + 1..j + 1 + |sep|];
    }
  }

  /** `split` cuts at an occurrence with no earlier one. */
  lemma {:induction false} SplitFirstAt(s: string, sep: string, i: nat)
    requires |sep| > 0 && OccursAt(s, sep, i)
    requires forall j: nat :: j < i ==> !OccursAt(s, sep, j)
    ensures Split(s, sep) == [s[..i]] + Split(s[i + |sep|..], sep)
    decreases i
  {
    if i == 0 {
      assert s[..|sep|] == sep;
      assert s[..0] == "";
    } else {
      assert !OccursAt(s, sep, 0);
      var t := s[1..];
      OccursAtShift(s, sep, i - 1);
      forall j: nat | j < i - 1
        ensures !OccursAt(t, sep, j)
      {
        OccursAtShift(s, sep, j);
      }
      var rest := Split(t, sep);
      SplitFirstAt(t, sep, i - 1);
      TailSlices(s, i - 1, i - 1 + |sep|);
      assert rest[0] == t[..i - 1] && rest[1..] == Split(s[i + |sep|..], sep);
      assert Split(s, sep) == [[s[0]] + rest[0]] + rest[1..];
    }
  }

  /** Slices of `s[1..]`, shifted back onto `s`. */
  lemma TailSlices(s: string, i: nat, j: nat)
    requires i < j < |s|
    ensures s[1..][j..] == s[j + 1..]
    ensures [s[0]] + s[1..][..i] == s[..i + 1]
  {
  }

  /** `split` cuts first at the leftmost occurrence, the one `indexOf` finds. */
  lemma SplitLeftmost(s: string, sep: string)
    requires |sep| > 0 && Occurs(s, sep)
    ensures var i := IndexOf(s, sep);
      Split(s, sep) == [s[..i]] + Split(s[i + |sep|..], sep)
  {
    var i := IndexOf(s, sep);
    assert OccursAt(s, sep, i);
    SplitFirstAt(s, sep, i);
  }

  /**
   * `s.split(pat).join(rep)` replaces the leftmost occurrence and goes on
   * after it; so the result is determined even for a self-overlapping `pat`.
   */
  lemma ReplaceAllLeftmost(s: string, pat: string, rep: string)
    requires |pat| > 0 && Occurs(s, pat)
    ensures var i := IndexOf(s, pat);
      ReplaceAll(s, pat, rep) == s[..i] + rep + ReplaceAll(s[i + |pat|..], pat, rep)
  {
    var i := IndexOf(s, pat);
    SplitLeftmost(s, pat);
    var rest := Split(s[i + |pat|..], pat);
    var parts := [s[..i]] + rest;
    assert parts[0] == s[..i] && parts[1..] == rest;
  }

  /**
   * Split/join replaces every occurrence: the string is its pattern-free
   * pieces glued with `pat`, and the result is the same pieces glued with `rep`.
   * Which pieces (the leftmost cuts) is `ReplaceAllLeftmost`.
   */
  lemma ReplaceAllEvery(s: string, pat: string, rep: string)
    requires |pat| > 0
    ensures exists parts: seq<string> ::
      && Join(parts, pat) == s
      && (forall k :: 0 <= k < |parts| ==> !Occurs(parts[k], pat))
      && ReplaceAll(s, pat, rep) == Join(parts, rep)
  {
    var parts := Split(s, pat);
    JoinSplit(s, pat);
    SplitPiecesFree(s, pat);
    assert Join(parts, pat) == s;
  }

  /** A string that does not contain the pattern is left unchanged. */
  lemma ReplaceAllAbsent(s: string, pat: string, rep: string)
    requires |pat| > 0 && !Occurs(s, pat)
    ensures ReplaceAll(s, pat, rep) == s
  {
    SplitNoOccurrence(s, pat);
  }

  /** Replacing a pattern by itself changes nothing. */
  lemma ReplaceAllSelf(s: string, pat: string)
    requires |pat| > 0
    ensures ReplaceAll(s, pat, pat) == s
  {
    JoinSplit(s, pat);
  }

  /** A string that lacks the first character of the pattern does not contain it. */
  lemma AbsentFirstChar(s: string, pat: string)
    requires |pat| > 0 && pat[0] !in s
    ensures !Occurs(s, pat)
  {
    forall i: nat
      ensures !OccursAt(s, pat, i)
    {
      if i + |pat| <= |s| {
        assert s[i..i + |pat|][0] == s[i];
      }
    }
  }

  /**
   * A string whose only copy of the pattern's first character is followed by
   * something other than the pattern's second character does not contain it.
   */
  lemma NotOccursAcross(c: string, pat: string, d: string)
    requires |pat| > 1 && pat[0] !in c && pat[0] !in d && (|d| > 0 ==> d[0] != pat[1])
    ensures !Occurs(c + [pat[0]] + d, pat)
  {
    var s := c + [pat[0]] + d;
    forall i: nat
      ensures !OccursAt(s, pat, i)
    {
      if i + |pat| <= |s| {
        assert s[i..i + |pat|][0] == s[i];
        assert s[i..i + |pat|][1] == s[i + 1];
        if i < |c| {
          assert s[i] == c[i];
        } else if i > |c| {
          assert s[i] == d[i - |c| - 1];
        } else {
          assert s[i + 1] == d[0];
        }
      }
    }
  }

  lemma OccursAtMiddle(a: string, pat: string, b: string)
    ensures OccursAt(a + pat + b, pat, |a|)
  {
    assert (a + pat + b)[|a|..|a| + |pat|] == pat;
  }

  /** When the pattern cannot start inside `a`, the first cut is right after `a`. */
  lemma {:induction false} SplitAtFirst(a: string, sep: string, b: string)
    requires |sep| > 0 && sep[0] !in a
    ensures Split(a + sep + b, sep) == [a] + Split(b, sep)
    decreases |a|
  {
    var s := a + sep + b;
    if a == [] {
      assert s[..|sep|] == sep && s[|sep|..] == b;
    } else {
      assert s[0] == a[0] && s[..|sep|][0] == a[0];
      assert s[1..] == a[1..] + sep + b;
      SplitAtFirst(a[1..], sep, b);
      assert [a[0]] + a[1..] == a;
    }
  }

  /** Replacing a pattern that occurs once, with nothing of it before or after. */
  lemma ReplaceSoleOccurrence(a: string, pat: string, b: string, rep: string)
    requires |pat| > 0 && pat[0] !in a && !Occurs(b, pat)
    ensures ReplaceAll(a + pat + b, pat, rep) == a + rep + b
  {
    SplitAtFirst(a, pat, b);
    SplitNoOccurrence(b, pat);
    assert Split(a + pat + b, pat) == [a, b];
    assert [a, b][1..] == [b];
    assert Join([a, b], rep) == a + rep + Join([b], rep);
  }

  // Decimal rendering of a status code, as `'...' + n` renders one (JavaScript's switch to
  // exponent form from 1e21 up never arises for a three-digit status).

  predicate IsDigit(c: char) {
    '0' <= c <= '9'
  }

  predicate AllDigits(s: string) {
    forall i :: 0 <= i < |s| ==> IsDigit(s[i])
  }

  function DigitChar(d: nat): (c: char)
    requires d < 10
    ensures IsDigit(c)
  {
    ('0' as int + d) as char
  }

  /** The decimal digits of `n`, most significant first, without leading zeros. */
  function NatToDecimal(n: nat): (s: string)
    ensures |s| >= 1 && AllDigits(s)
    ensures s[0] == '0' ==> n == 0 && s == "0"
  {
    if n < 10 then [DigitChar(n)] else NatToDecimal(n / 10) + [DigitChar(n % 10)]
  }

  /** The number a string of decimal digits denotes. */
  function DecimalValue(s: string): nat
    requires AllDigits(s)
  {
    if s == [] then 0
    else DecimalValue(s[..|s| - 1]) * 10 + (s[|s| - 1] as int - '0' as int)
  }

  /** Reading back the decimal rendering of `n` gives `n`. */
  lemma {:induction false} DecimalRoundTrip(n: nat)
    ensures DecimalValue(NatToDecimal(n)) == n
  {
    if n >= 10 {
      var s := NatToDecimal(n);
      assert s[..|s| - 1] == NatToDecimal(n / 10);
      DecimalRoundTrip(n / 10);
    }
  }

  /** Distinct numbers have distinct decimal renderings. */
  lemma DecimalInjective(m: nat, n: nat)
    requires NatToDecimal(m) == NatToDecimal(n)
    ensures m == n
  {
    DecimalRoundTrip(m);
    DecimalRoundTrip(n);
  }
}

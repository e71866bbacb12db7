/**
 * The few string operations of Python that the closet logic relies on:
 * `str.isspace`, `str.strip()`, `str.lower()` and the substring test `t in s`.
 */
module Text {

  /** Python's `str.isspace` for a single character. */
  predicate IsSpace(c: char) {
    || ('\t' <= c <= '\r')
    || ('\U{1C}' <= c <= '\U{1F}')
    || c == ' ' || c == '\U{85}' || c == '\U{A0}' || c == '\U{1680}'
    || ('\U{2000}' <= c <= '\U{200A}')
    || c == '\U{2028}' || c == '\U{2029}' || c == '\U{202F}' || c == '\U{205F}' || c == '\U{3000}'
  }

  /** Every character of `s` is white space (true of the empty string). */
  predicate AllSpace(s: string) {
    forall k :: 0 <= k < |s| ==> IsSpace(s[k])
  }

  /** `s` is empty or starts and ends with a character that is not white space. */
  predicate Trimmed(s: string) {
    s == [] || (!IsSpace(s[0]) && !IsSpace(s[|s| - 1]))
  }

  /** `s` without its leading white space. */
  function TrimStart(s: string): (r: string) {
    if s != [] && IsSpace(s[0]) then TrimStart(s[1..]) else s
  }

  /** `s` without its trailing white space. */
  function TrimEnd(s: string): (r: string) {
    if s != [] && IsSpace(s[|s| - 1]) then TrimEnd(s[..|s| - 1]) else s
  }

  /** TrimStart drops a prefix that is all white space and stops at the first other character. */
  lemma {:induction false} TrimStartSpec(s: string)
    ensures var r := TrimStart(s);
      && |r| <= |s| && r == s[|s| - |r|..]
      && AllSpace(s[..|s| - |r|])
      && (r == [] || !IsSpace(r[0]))
  {
    if s != [] && IsSpace(s[0]) {
      TrimStartSpec(s[1..]);
      var r := TrimStart(s[1..]);
      assert s[1..][|s| - 1 - |r|..] == s[|s| - |r|..];
      forall k | 0 <= k < |s| - |r| ensures IsSpace(s[k]) {
        if k > 0 {
          assert s[k] == s[1..][..|s| - 1 - |r|][k - 1];
        }
      }
    }
  }

  /** TrimEnd drops a suffix that is all white space and stops at the last other character. */
  lemma {:induction false} TrimEndSpec(s: string)
    ensures var r := TrimEnd(s);
      && |r| <= |s| && r == s[..|r|]
      && AllSpace(s[|r|..])
      && (r == [] || !IsSpace(r[|r| - 1]))
  {
    if s != [] && IsSpace(s[|s| - 1]) {
      var n := |s| - 1;
      TrimEndSpec(s[..n]);
      var r := TrimEnd(s[..n]);
      assert s[..n][..|r|] == s[..|r|];
      forall k | |r| <= k < |s| ensures IsSpace(s[k]) {
        if k < n {
          assert s[k] == s[..n][|r|..][k - |r|];
        }
      }
    }
  }

  /** Python's `s.strip()`: white space removed from both ends. */
  function Strip(s: string): (r: string)
    ensures |r| <= |s|
    ensures Trimmed(r)
    ensures r == [] <==> AllSpace(s)
  {
    var t := TrimStart(s);
    TrimStartSpec(s);
    TrimEndSpec(t);
    assert t == [] ==> s[..|s|] == s;
    assert TrimEnd(t) == [] ==> t[0..] == t;
    TrimEnd(t)
  }

  /** Leading white space before a string that does not start with white space is exactly what TrimStart drops. */
  lemma {:induction false} TrimStartAfterSpaces(a: string, x: string)
    requires AllSpace(a)
    requires x == [] || !IsSpace(x[0])
    ensures TrimStart(a + x) == x
  {
    if a == [] {
      assert a + x == x;
    } else {
      assert (a + x)[1..] == a[1..] + x;
      TrimStartAfterSpaces(a[1..], x);
    }
  }

  /** Trailing white space after a string that does not end with white space is exactly what TrimEnd drops. */
  lemma {:induction false} TrimEndBeforeSpaces(x: string, b: string)
    requires AllSpace(b)
    requires x == [] || !IsSpace(x[|x| - 1])
    ensures TrimEnd(x + b) == x
  {
    if b == [] {
      assert x + b == x;
    } else {
      var n := |x + b| - 1;
      assert (x + b)[n] == b[|b| - 1];
      assert (x + b)[..n] == x + b[..|b| - 1];
      TrimEndBeforeSpaces(x, b[..|b| - 1]);
    }
  }

  /**
   * Strip is characterised by the decomposition it undoes: whenever `s` is white space,
   * then a trimmed string, then white space, Strip returns that middle part.
   */
  lemma StripIsMiddle(a: string, x: string, b: string)
    requires AllSpace(a) && AllSpace(b) && Trimmed(x)
    ensures Strip(a + x + b) == x
  {
    var s := a + x + b;
    if x == [] {
      assert AllSpace(s) by {
        forall k | 0 <= k < |s| ensures IsSpace(s[k]) {
          if k < |a| { assert s[k] == a[k]; } else { assert s[k] == b[k - |a|]; }
        }
      }
    } else {
      assert s == a + (x + b);
      TrimStartAfterSpaces(a, x + b);
      TrimEndBeforeSpaces(x, b);
    }
  }

  /** Every string is leading white space, then its stripped form, then trailing white space. */
  lemma StripSplits(s: string) returns (i: nat)
    ensures i + |Strip(s)| <= |s|
    ensures Strip(s) == s[i..i + |Strip(s)|]
    ensures AllSpace(s[..i]) && AllSpace(s[i + |Strip(s)|..])
  {
    var t := TrimStart(s);
    TrimStartSpec(s);
    TrimEndSpec(t);
    var r := TrimEnd(t);
    i := |s| - |t|;
    assert t == s[i..];
    assert r == s[i..][..|r|] == s[i..i + |r|];
    assert t[|r|..] == s[i + |r|..];
  }

  /** Stripping twice is stripping once. */
  lemma StripIdempotent(s: string)
    ensures Strip(Strip(s)) == Strip(s)
  {
    var x := Strip(s);
    StripIsMiddle([], x, []);
    assert [] + x + [] == x;
  }

  /** Python's `t in s` on strings: `t` occurs in `s` as a contiguous run. */
  predicate Contains(s: string, t: string) {
    exists i | 0 <= i <= |s| :: OccursAt(s, t, i)
  }

  /** `t` occurs in `s` starting at position `i`. */
  predicate OccursAt(s: string, t: string, i: int) {
    0 <= i <= |s| - |t| && s[i..i + |t|] == t
  }

  /** Python's `str.lower()` on one character, restricted to the ASCII letters. */
  function LowerChar(c: char): (l: char) {
    if 'A' <= c <= 'Z' then (c as int + 32) as char else c
  }

  /** Python's `str.lower()`, restricted to the ASCII letters. */
  function Lower(s: string): (r: string) {
    seq(|s|, i requires 0 <= i < |s| => LowerChar(s[i]))
  }

  /** `t` holds no ASCII letter, so no character lowers to one of its characters except itself. */
  predicate NoAsciiLetter(t: string) {
    forall j :: 0 <= j < |t| ==> !('A' <= t[j] <= 'Z') && !('a' <= t[j] <= 'z')
  }

  /** At a single position, lowering the text does not change whether a token without ASCII letters starts there. */
  lemma LowerOccursAt(s: string, t: string, i: int)
    requires NoAsciiLetter(t)
    ensures OccursAt(Lower(s), t, i) <==> OccursAt(s, t, i)
  {
    var l := Lower(s);
    if 0 <= i <= |s| - |t| {
      if s[i..i + |t|] == t {
        forall j | 0 <= j < |t| ensures l[i..i + |t|][j] == t[j] {
          assert s[i + j] == t[j];
        }
      }
      if l[i..i + |t|] == t {
        forall j | 0 <= j < |t| ensures s[i..i + |t|][j] == t[j] {
          assert LowerChar(s[i + j]) == t[j];
        }
      }
    }
  }

  /** Lowering the text cannot create or destroy an occurrence of a token without ASCII letters. */
  lemma LowerKeepsOccurrence(s: string, t: string)
    requires NoAsciiLetter(t)
    ensures Contains(Lower(s), t) <==> Contains(s, t)
  {
    if Contains(Lower(s), t) {
      var i :| 0 <= i <= |Lower(s)| && OccursAt(Lower(s), t, i);
      LowerOccursAt(s, t, i);
    }
    if Contains(s, t) {
      var i :| 0 <= i <= |s| && OccursAt(s, t, i);
      LowerOccursAt(s, t, i);
    }
  }
}

/** ASCII versions of the Python string operations the system relies on:
    `str.strip()`, `str.lower()`, `str.upper()`, `in` on strings and
    `str.endswith()`. */
module Text {

  /** The ASCII characters for which Python's `str.isspace()` holds:
      tab, line feed, vertical tab, form feed, carriage return, the four
      information separators and the space. */
  predicate IsSpace(c: char)
  {
    9 <= c as int <= 13 || 28 <= c as int <= 32
  }

  predicate AllSpace(s: string)
  {
    forall i :: 0 <= i < |s| ==> IsSpace(s[i])
  }

  /** `s.lstrip()`: the longest suffix of `s` that does not start with
      whitespace (`TrimStartShape` states that it is a suffix). */
  function TrimStart(s: string): (r: string)
    ensures |r| <= |s|
    ensures r == [] || !IsSpace(r[0])
    ensures r != [] ==> r[|r| - 1] == s[|s| - 1]
  {
    if s != [] && IsSpace(s[0]) then TrimStart(s[1..]) else s
  }

  /** `s.rstrip()`: the longest prefix of `s` that does not end with
      whitespace (`TrimEndShape` states that it is a prefix). */
  function TrimEnd(s: string): (r: string)
    ensures |r| <= |s|
    ensures r == [] || !IsSpace(r[|r| - 1])
    ensures r != [] ==> r[0] == s[0]
  {
    if s != [] && IsSpace(s[|s| - 1]) then TrimEnd(s[..|s| - 1]) else s
  }

  /** `lstrip` removes a run of whitespace from the front and nothing else. */
  lemma {:induction false} TrimStartShape(s: string)
    ensures TrimStart(s) == s[|s| - |TrimStart(s)|..]
    ensures AllSpace(s[..|s| - |TrimStart(s)|])
  {
    if s != [] && IsSpace(s[0]) {
      TrimStartShape(s[1..]);
      var n := |s| - |TrimStart(s)|;
      assert s[1..][n - 1..] == s[n..];
      assert forall i :: 1 <= i < n ==> s[i] == s[1..][..n - 1][i - 1];
    }
  }

  /** `rstrip` removes a run of whitespace from the back and nothing else. */
  lemma {:induction false} TrimEndShape(s: string)
    ensures TrimEnd(s) == s[..|TrimEnd(s)|]
    ensures AllSpace(s[|TrimEnd(s)|..])
  {
    if s != [] && IsSpace(s[|s| - 1]) {
      var init := s[..|s| - 1];
      TrimEndShape(init);
      var n := |TrimEnd(s)|;
      assert init[..n] == s[..n];
      assert forall i :: n <= i < |s| - 1 ==> s[i] == init[n..][i - n];
    }
  }

  /** `s.strip()`. */
  function Trim(s: string): (r: string)
    ensures r == [] || (!IsSpace(r[0]) && !IsSpace(r[|r| - 1]))
    ensures |r| <= |s|
  {
    TrimEnd(TrimStart(s))
  }

  function LowerChar(c: char): char
  {
    if 'A' <= c <= 'Z' then (c as int + 32) as char else c
  }

  function UpperChar(c: char): char
  {
    if 'a' <= c <= 'z' then (c as int - 32) as char else c
  }

  function Lower(s: string): (r: string)
    ensures |r| == |s| && forall i :: 0 <= i < |s| ==> r[i] == LowerChar(s[i])
  {
    seq(|s|, i requires 0 <= i < |s| => LowerChar(s[i]))
  }

  function Upper(s: string): (r: string)
    ensures |r| == |s| && forall i :: 0 <= i < |s| ==> r[i] == UpperChar(s[i])
  {
    seq(|s|, i requires 0 <= i < |s| => UpperChar(s[i]))
  }

  /** Python's `sub in s`. */
  predicate IsSubstring(sub: string, s: string)
  {
    exists i | 0 <= i <= |s| - |sub| :: OccursAt(sub, s, i)
  }

  predicate OccursAt(sub: string, s: string, i: int)
  {
    0 <= i <= |s| - |sub| && s[i..i + |sub|] == sub
  }

  predicate StartsWith(s: string, prefix: string)
  {
    |prefix| <= |s| && s[..|prefix|] == prefix
  }

  /** Python's `s.endswith(suffix)`. */
  predicate EndsWith(s: string, suffix: string)
  {
    |suffix| <= |s| && s[|s| - |suffix|..] == suffix
  }

  /** Whitespace around a string with non-blank ends is exactly what `strip` removes. */
  lemma {:induction false} TrimPadded(w1: string, x: string, w2: string)
    requires AllSpace(w1) && AllSpace(w2)
    requires x != [] && !IsSpace(x[0]) && !IsSpace(x[|x| - 1])
    ensures Trim(w1 + x + w2) == x
  {
    TrimStartPadded(w1, x + w2);
    assert (w1 + x + w2) == w1 + (x + w2);
    TrimEndPadded(x, w2);
  }

  lemma {:induction false} TrimStartPadded(w: string, x: string)
    requires AllSpace(w)
    requires x != [] && !IsSpace(x[0])
    ensures TrimStart(w + x) == x
  {
    if w == [] {
      assert w + x == x;
    } else {
      assert (w + x)[0] == w[0];
      assert (w + x)[1..] == w[1..] + x;
      TrimStartPadded(w[1..], x);
    }
  }

  lemma {:induction false} TrimEndPadded(x: string, w: string)
    requires AllSpace(w)
    requires x != [] && !IsSpace(x[|x| - 1])
    ensures TrimEnd(x + w) == x
    decreases |w|
  {
    if w == [] {
      assert x + w == x;
    } else {
      var n := |x + w|;
      assert (x + w)[n - 1] == w[|w| - 1];
      assert (x + w)[..n - 1] == x + w[..|w| - 1];
      TrimEndPadded(x, w[..|w| - 1]);
    }
  }

  /** A string made only of whitespace strips to the empty string. */
  lemma {:induction false} TrimAllSpace(w: string)
    requires AllSpace(w)
    ensures Trim(w) == []
  {
    if w != [] {
      TrimAllSpace(w[1..]);
      assert TrimStart(w) == TrimStart(w[1..]);
      assert TrimStart(w[1..]) == [] by {
        if TrimStart(w[1..]) != [] {
          TrimStartShape(w[1..]);
        }
      }
    }
  }

  /** Lower-casing commutes with stripping: case changes no whitespace. */
  lemma TrimLower(s: string)
    ensures Lower(Trim(s)) == Trim(Lower(s))
  {
    TrimStartLower(s);
    TrimEndLower(TrimStart(s));
  }

  lemma {:induction false} TrimStartLower(s: string)
    ensures Lower(TrimStart(s)) == TrimStart(Lower(s))
  {
    var l := Lower(s);
    if s != [] {
      assert l[0] == LowerChar(s[0]);
      assert IsSpace(l[0]) == IsSpace(s[0]);
    }
    if s != [] && IsSpace(s[0]) {
      TrimStartLower(s[1..]);
      assert l[1..] == Lower(s[1..]);
      assert TrimStart(l) == TrimStart(l[1..]);
    } else {
      assert TrimStart(s) == s;
      assert TrimStart(l) == l;
    }
  }

  lemma {:induction false} TrimEndLower(s: string)
    ensures Lower(TrimEnd(s)) == TrimEnd(Lower(s))
  {
    var l := Lower(s);
    if s != [] {
      assert l[|s| - 1] == LowerChar(s[|s| - 1]);
      assert IsSpace(l[|s| - 1]) == IsSpace(s[|s| - 1]);
    }
    if s != [] && IsSpace(s[|s| - 1]) {
      TrimEndLower(s[..|s| - 1]);
      assert l[..|s| - 1] == Lower(s[..|s| - 1]);
      assert TrimEnd(l) == TrimEnd(l[..|s| - 1]);
    } else {
      assert TrimEnd(s) == s;
      assert TrimEnd(l) == l;
    }
  }

  /** A string with no whitespace at either end is left alone by `strip`. */
  lemma TrimNoop(s: string)
    requires s == [] || (!IsSpace(s[0]) && !IsSpace(s[|s| - 1]))
    ensures Trim(s) == s
  {
    assert TrimStart(s) == s;
  }

  /** A string without lower-case letters is left alone by `upper`. */
  lemma UpperNoop(s: string)
    requires forall i :: 0 <= i < |s| ==> !('a' <= s[i] <= 'z')
    ensures Upper(s) == s
  {
  }

  /** Where `strip` cuts: the result is the slice from the first non-space
      character, with only whitespace on either side of it. */
  lemma TrimSlice(s: string) returns (a: nat)
    ensures var r := Trim(s); a + |r| <= |s| && r == s[a..a + |r|] && AllSpace(s[..a]) && AllSpace(s[a + |r|..])
  {
    var u := TrimStart(s);
    TrimStartShape(s);
    TrimEndShape(u);
    a := |s| - |u|;
    CutOfCut(s, u, TrimEnd(u));
  }

  /** Cutting whitespace from the front and then from the back leaves a slice
      with whitespace on either side. */
  lemma CutOfCut(s: string, u: string, r: string)
    requires |u| <= |s| && u == s[|s| - |u|..] && AllSpace(s[..|s| - |u|])
    requires |r| <= |u| && r == u[..|r|] && AllSpace(u[|r|..])
    ensures var a := |s| - |u|; r == s[a..a + |r|] && AllSpace(s[a + |r|..])
  {
    var a := |s| - |u|;
    assert u[..|r|] == s[a..a + |r|];
    assert u[|r|..] == s[a + |r|..];
  }

  lemma TrimEmptyIsAllSpace(s: string)
    requires Trim(s) == []
    ensures AllSpace(s)
  {
    var a := TrimSlice(s);
    assert forall i :: 0 <= i < |s| ==> (i < a ==> s[i] == s[..a][i]) && (i >= a ==> s[i] == s[a..][i - a]);
  }
}

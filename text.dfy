/** Python's `str.strip()`, `str.lower()` and the substring test `w in s`,
    over Dafny strings. A Dafny `char` is a Unicode scalar value, as one
    element of a Python `str` is, so lengths and indices agree. */
module Text {

  /** The code points Python's `str.isspace()` accepts; `str.strip()` with no
      argument removes exactly these from both ends. */
  predicate IsSpace(c: char) {
    || ('\U{9}' <= c <= '\U{D}')
    || ('\U{1C}' <= c <= '\U{20}')
    || c == '\U{85}' || c == '\U{A0}' || c == '\U{1680}'
    || ('\U{2000}' <= c <= '\U{200A}')
    || c == '\U{2028}' || c == '\U{2029}' || c == '\U{202F}'
    || c == '\U{205F}' || c == '\U{3000}'
  }

  predicate AllSpace(s: string) {
    forall k :: 0 <= k < |s| ==> IsSpace(s[k])
  }

  lemma AllSpaceConcat(a: string, b: string)
    ensures AllSpace(a + b) <==> AllSpace(a) && AllSpace(b)
  {
    if AllSpace(a) && AllSpace(b) {
      forall k | 0 <= k < |a + b| ensures IsSpace((a + b)[k]) {
        if k >= |a| {
          assert (a + b)[k] == b[k - |a|];
        }
      }
    }
    if AllSpace(a + b) {
      forall k | 0 <= k < |a| ensures IsSpace(a[k]) {
        assert a[k] == (a + b)[k];
      }
      forall k | 0 <= k < |b| ensures IsSpace(b[k]) {
        assert b[k] == (a + b)[|a| + k];
      }
    }
  }

  /** The left half of `strip`: drops leading whitespace. */
  function TrimStart(s: string): string {
    if s != [] && IsSpace(s[0]) then TrimStart(s[1..]) else s
  }

  /** The right half of `strip`: drops trailing whitespace. */
  function TrimEnd(s: string): string {
    if s != [] && IsSpace(s[|s| - 1]) then TrimEnd(s[..|s| - 1]) else s
  }

  /** `TrimStart` keeps a suffix that is empty or starts with a non-space,
      and everything it drops is whitespace. */
  lemma {:induction false} TrimStartSpec(s: string)
    ensures |TrimStart(s)| <= |s| && TrimStart(s) == s[|s| - |TrimStart(s)|..]
    ensures TrimStart(s) == [] || !IsSpace(TrimStart(s)[0])
    ensures AllSpace(s[..|s| - |TrimStart(s)|])
  {
    if s != [] && IsSpace(s[0]) {
      TrimStartSpec(s[1..]);
      var r := TrimStart(s[1..]);
      assert s[1..][..|s| - 1 - |r|] == s[1..|s| - |r|];
    }
  }

  /** `TrimEnd` keeps a prefix that is empty or ends with a non-space, and
      everything it drops is whitespace. */
  lemma {:induction false} TrimEndSpec(s: string)
    ensures |TrimEnd(s)| <= |s| && TrimEnd(s) == s[..|TrimEnd(s)|]
    ensures TrimEnd(s) == [] || !IsSpace(TrimEnd(s)[|TrimEnd(s)| - 1])
    ensures AllSpace(s[|TrimEnd(s)|..])
  {
    if s != [] && IsSpace(s[|s| - 1]) {
      TrimEndSpec(s[..|s| - 1]);
      var r := TrimEnd(s[..|s| - 1]);
      assert s[|r|..] == s[..|s| - 1][|r|..] + [s[|s| - 1]];
      AllSpaceConcat(s[..|s| - 1][|r|..], [s[|s| - 1]]);
    }
  }

  /** `s.strip()` */
  function Strip(s: string): string {
    TrimEnd(TrimStart(s))
  }

  lemma {:induction false} TrimStartPadded(a: string, u: string)
    requires AllSpace(a)
    requires u == [] || !IsSpace(u[0])
    ensures TrimStart(a + u) == u
  {
    if a != [] {
      assert (a + u)[1..] == a[1..] + u;
      TrimStartPadded(a[1..], u);
    }
  }

  lemma {:induction false} TrimEndPadded(u: string, b: string)
    requires AllSpace(b)
    requires u == [] || !IsSpace(u[|u| - 1])
    ensures TrimEnd(u + b) == u
  {
    if b != [] {
      assert (u + b)[..|u + b| - 1] == u + b[..|b| - 1];
      TrimEndPadded(u, b[..|b| - 1]);
    }
  }

  /** `strip` removes exactly the whitespace padding around a core that
      neither starts nor ends with whitespace: this determines `Strip`. */
  lemma StripPadded(a: string, t: string, b: string)
    requires AllSpace(a) && AllSpace(b)
    requires t == [] || (!IsSpace(t[0]) && !IsSpace(t[|t| - 1]))
    ensures Strip(a + t + b) == t
  {
    assert a + t + b == a + (t + b);
    if t == [] {
      assert a + t + b == a + b;
      TrimStartPadded(a + b, []);
      assert a + b + [] == a + b;
    } else {
      TrimStartPadded(a, t + b);
      TrimEndPadded(t, b);
    }
  }

  /** What `strip` returns: a possibly empty string that neither starts nor
      ends with whitespace, and empty exactly when the input is all whitespace. */
  lemma StripShape(s: string)
    ensures |Strip(s)| <= |s|
    ensures Strip(s) == [] || (!IsSpace(Strip(s)[0]) && !IsSpace(Strip(s)[|Strip(s)| - 1]))
    ensures Strip(s) == [] <==> AllSpace(s)
  {
    var u := TrimStart(s);
    var r := TrimEnd(u);
    TrimStartSpec(s);
    TrimEndSpec(u);
    assert Strip(s) == r;
    if r != [] {
      assert r[0] == u[0];
    } else {
      assert u[|r|..] == u;
      var pad := s[..|s| - |u|];
      assert s == pad + u;
      AllSpaceConcat(pad, u);
    }
  }

  /** A string that neither starts nor ends with whitespace is its own strip. */
  lemma StripUnpadded(t: string)
    requires t == [] || (!IsSpace(t[0]) && !IsSpace(t[|t| - 1]))
    ensures Strip(t) == t
  {
    StripPadded([], t, []);
    assert [] + t + [] == t;
  }

  lemma StripIdempotent(s: string)
    ensures Strip(Strip(s)) == Strip(s)
  {
    StripShape(s);
    StripUnpadded(Strip(s));
  }

  /** `str.lower()` on one character, for the ASCII letters. */
  function LowerChar(c: char): char {
    if 'A' <= c <= 'Z' then (c as int + 32) as char else c
  }

  /** `s.lower()`, ASCII letters only. */
  function Lower(s: string): string {
    if s == [] then [] else [LowerChar(s[0])] + Lower(s[1..])
  }

  /** `Lower` maps every character on its own, keeping the length. */
  lemma {:induction false} LowerSpec(s: string)
    ensures |Lower(s)| == |s|
    ensures forall k :: 0 <= k < |s| ==> Lower(s)[k] == LowerChar(s[k])
  {
    if s != [] {
      LowerSpec(s[1..]);
    }
  }

  lemma LowerIdempotent(s: string)
    ensures Lower(Lower(s)) == Lower(s)
  {
    LowerSpec(s);
    LowerSpec(Lower(s));
    assert forall k :: 0 <= k < |s| ==> Lower(Lower(s))[k] == Lower(s)[k];
  }

  /** `w` sits in `s` at index `i`. */
  ghost predicate OccursAt(w: string, s: string, i: int) {
    0 <= i <= |s| - |w| && s[i..i + |w|] == w
  }

  /** Python's `w in s` on strings, by its meaning: `w` occurs in `s` as a
      contiguous block (the empty string occurs everywhere). */
  ghost predicate OccursIn(w: string, s: string) {
    exists i :: OccursAt(w, s, i)
  }

  /** `w in s`, computed: a prefix of `s` or found further along. */
  function Contains(s: string, w: string): bool {
    w <= s || (s != [] && Contains(s[1..], w))
  }

  lemma {:induction false} ContainsMeansOccurs(s: string, w: string)
    ensures Contains(s, w) <==> OccursIn(w, s)
  {
    if w <= s {
      assert OccursAt(w, s, 0);
    } else if s == [] {
      assert |w| > 0;
    } else {
      ContainsMeansOccurs(s[1..], w);
      if Contains(s[1..], w) {
        var i :| OccursAt(w, s[1..], i);
        assert s[1..][i..i + |w|] == s[i + 1..i + 1 + |w|];
        assert OccursAt(w, s, i + 1);
      }
      assert !OccursAt(w, s, 0);
      if OccursIn(w, s) {
        var i :| OccursAt(w, s, i);
        assert s[1..][i - 1..i - 1 + |w|] == s[i..i + |w|];
        assert OccursAt(w, s[1..], i - 1);
      }
    }
  }

  /** `any(w in s for w in words)` */
  function AnyContains(s: string, words: seq<string>): bool {
    words != [] && (Contains(s, words[0]) || AnyContains(s, words[1..]))
  }

  lemma {:induction false} AnyContainsMeans(s: string, words: seq<string>)
    ensures AnyContains(s, words) <==> exists k :: 0 <= k < |words| && OccursIn(words[k], s)
  {
    if words != [] {
      ContainsMeansOccurs(s, words[0]);
      AnyContainsMeans(s, words[1..]);
      if exists k :: 0 <= k < |words| && OccursIn(words[k], s) {
        var k :| 0 <= k < |words| && OccursIn(words[k], s);
        if k > 0 {
          assert words[1..][k - 1] == words[k];
        }
      }
      if exists k :: 0 <= k < |words[1..]| && OccursIn(words[1..][k], s) {
        var k :| 0 <= k < |words[1..]| && OccursIn(words[1..][k], s);
        assert words[k + 1] == words[1..][k];
      }
    }
  }
}

/**
 * The handful of Python string built-ins the video manager's core relies on,
 * written out as Dafny functions over `string` (= `seq<char>`):
 * `str.lower()`, `str.split()` with no separator, the substring test `p in s`,
 * `str.endswith(...)` and `str.replace(pat, rep)`.
 */
module Text {

  /** The characters `str.isspace()` accepts, which is the set `str.split()` splits on. */
  predicate IsSpace(c: char) {
    || c == ' '
    || ('\t' <= c <= '\r')                 // \t \n \v \f \r
    || ('\U{1C}' <= c <= '\U{1F}')         // file, group, record and unit separators
    || c == '\U{85}' || c == '\U{A0}' || c == '\U{1680}'
    || ('\U{2000}' <= c <= '\U{200A}')
    || c == '\U{2028}' || c == '\U{2029}' || c == '\U{202F}' || c == '\U{205F}' || c == '\U{3000}'
  }

  predicate NoSpace(w: string) {
    forall i :: 0 <= i < |w| ==> !IsSpace(w[i])
  }

  predicate AllSpace(s: string) {
    forall i :: 0 <= i < |s| ==> IsSpace(s[i])
  }

  // ---------------------------------------------------------------------------
  // str.lower()

  function LowerChar(c: char): (d: char)
    ensures 'A' <= c <= 'Z' ==> 'a' <= d <= 'z'
    ensures !('A' <= c <= 'Z') ==> d == c
  {
    if 'A' <= c <= 'Z' then (c as int + 32) as char else c
  }

  /** `s.lower()` on the ASCII letters; every other character is kept. */
  function Lower(s: string): (r: string)
    ensures |r| == |s|
    ensures forall i :: 0 <= i < |s| ==> r[i] == LowerChar(s[i])
  {
    seq(|s|, i requires 0 <= i < |s| => LowerChar(s[i]))
  }

  /** A string without upper-case ASCII letters is its own lower-case form. */
  lemma LowerOfLower(s: string)
    requires forall i :: 0 <= i < |s| ==> !('A' <= s[i] <= 'Z')
    ensures Lower(s) == s
  {
  }

  // ---------------------------------------------------------------------------
  // str.split() with no separator: runs of whitespace separate the words, and
  // leading and trailing whitespace produce no empty words.

  /** The length of the longest prefix of `s` that is all whitespace. */
  function SpaceLength(s: string): (n: nat)
    ensures n <= |s|
    ensures forall i :: 0 <= i < n ==> IsSpace(s[i])
    ensures n < |s| ==> !IsSpace(s[n])
  {
    if s == [] || !IsSpace(s[0]) then 0 else 1 + SpaceLength(s[1..])
  }

  /** The length of the longest prefix of `s` that holds no whitespace. */
  function WordLength(s: string): (n: nat)
    ensures n <= |s|
    ensures forall i :: 0 <= i < n ==> !IsSpace(s[i])
    ensures n < |s| ==> IsSpace(s[n])
  {
    if s == [] || IsSpace(s[0]) then 0 else 1 + WordLength(s[1..])
  }

  /** `s.split()`: every word is non-empty and holds no whitespace. */
  function Split(s: string): (words: seq<string>)
    ensures forall k :: 0 <= k < |words| ==> words[k] != [] && NoSpace(words[k])
    decreases |s|
  {
    var t := s[SpaceLength(s)..];
    if t == [] then []
    else
      var n := WordLength(t);
      assert n != 0 by { assert !IsSpace(t[0]); }
      [t[..n]] + Split(t[n..])
  }

  /** The characters of `s` that are not whitespace, in order. */
  function RemoveSpace(s: string): string {
    if s == [] then []
    else (if IsSpace(s[0]) then [] else [s[0]]) + RemoveSpace(s[1..])
  }

  function Concat(words: seq<string>): string {
    if words == [] then [] else words[0] + Concat(words[1..])
  }

  lemma {:induction false} RemoveSpaceAppend(a: string, b: string)
    ensures RemoveSpace(a + b) == RemoveSpace(a) + RemoveSpace(b)
  {
    if a != [] {
      var head := if IsSpace(a[0]) then [] else [a[0]];
      assert (a + b)[0] == a[0] && (a + b)[1..] == a[1..] + b;
      RemoveSpaceAppend(a[1..], b);
      calc {
        RemoveSpace(a + b);
        head + RemoveSpace(a[1..] + b);
        head + (RemoveSpace(a[1..]) + RemoveSpace(b));
        (head + RemoveSpace(a[1..])) + RemoveSpace(b);
      }
    } else {
      assert a + b == b;
    }
  }

  lemma {:induction false} RemoveSpaceOfAllSpace(s: string)
    requires AllSpace(s)
    ensures RemoveSpace(s) == []
  {
    if s != [] {
      RemoveSpaceOfAllSpace(s[1..]);
    }
  }

  lemma {:induction false} RemoveSpaceOfNoSpace(s: string)
    requires NoSpace(s)
    ensures RemoveSpace(s) == s
  {
    if s != [] {
      RemoveSpaceOfNoSpace(s[1..]);
    }
  }

  /** Gluing the words of `s.split()` back together gives `s` without its whitespace. */
  lemma {:induction false} SplitConcat(s: string)
    ensures Concat(Split(s)) == RemoveSpace(s)
    decreases |s|
  {
    var m := SpaceLength(s);
    var lead, t := s[..m], s[m..];
    assert s == lead + t;
    RemoveSpaceAppend(lead, t);
    RemoveSpaceOfAllSpace(lead);
    if t != [] {
      var n := WordLength(t);
      var w, rest := t[..n], t[n..];
      assert t == w + rest;
      RemoveSpaceAppend(w, rest);
      RemoveSpaceOfNoSpace(w);
      SplitConcat(rest);
      assert ([w] + Split(rest))[1..] == Split(rest);
    }
  }

  /** A word followed by whitespace (or by nothing) has exactly its own length as word length. */
  lemma {:induction false} WordLengthOfWordThen(w: string, rest: string)
    requires NoSpace(w) && (rest == [] || IsSpace(rest[0]))
    ensures WordLength(w + rest) == |w|
  {
    if w != [] {
      assert (w + rest)[1..] == w[1..] + rest;
      WordLengthOfWordThen(w[1..], rest);
    } else {
      assert w + rest == rest;
    }
  }

  /** Leading whitespace does not change the words. */
  lemma SplitSkipsSpace(c: char, s: string)
    requires IsSpace(c)
    ensures Split([c] + s) == Split(s)
  {
    var x := [c] + s;
    assert x[1..] == s;
    assert SpaceLength(x) == 1 + SpaceLength(s);
    assert x[SpaceLength(x)..] == s[SpaceLength(s)..];
  }

  /**
   * Words are maximal: a non-empty run of non-whitespace followed by a
   * whitespace character is one word, and the words of the rest follow it.
   */
  lemma SplitWordThen(w: string, c: char, s: string)
    requires w != [] && NoSpace(w) && IsSpace(c)
    ensures Split(w + [c] + s) == [w] + Split(s)
  {
    var x := w + ([c] + s);
    assert w + [c] + s == x;
    assert SpaceLength(x) == 0 by { assert x[0] == w[0]; }
    assert x[0..] == x;
    WordLengthOfWordThen(w, [c] + s);
    assert x[..|w|] == w && x[|w|..] == [c] + s;
    SplitSkipsSpace(c, s);
  }

  /** A non-empty string without whitespace splits into itself. */
  lemma SplitWord(w: string)
    requires w != [] && NoSpace(w)
    ensures Split(w) == [w]
  {
    WordLengthOfWordThen(w, []);
    assert w + [] == w;
    assert w[|w|..] == [] && w[..|w|] == w;
  }

  /** `s.split()` is empty exactly when `s` is empty or all whitespace. */
  lemma SplitEmptyIff(s: string)
    ensures Split(s) == [] <==> AllSpace(s)
  {
    var m := SpaceLength(s);
    if m < |s| {
      assert !IsSpace(s[m]);
    }
  }

  // ---------------------------------------------------------------------------
  // The substring test `p in s`.

  predicate IsPrefix(p: string, s: string) {
    |p| <= |s| && s[..|p|] == p
  }

  /** `p in s`, by scanning the start positions of `s` left to right; a pattern longer than the text never occurs. */
  predicate Contains(s: string, p: string)
    ensures Contains(s, p) ==> |p| <= |s|
    decreases |s|
  {
    IsPrefix(p, s) || (s != [] && Contains(s[1..], p))
  }

  predicate OccursAt(s: string, p: string, i: int) {
    0 <= i && i + |p| <= |s| && s[i..i + |p|] == p
  }

  /** The scan finds `p` exactly when `p` occurs at some position of `s`. */
  lemma {:induction false} ContainsIff(s: string, p: string)
    ensures Contains(s, p) <==> exists i :: OccursAt(s, p, i)
    decreases |s|
  {
    if IsPrefix(p, s) {
      assert OccursAt(s, p, 0);
    } else if s != [] {
      ContainsIff(s[1..], p);
      if Contains(s[1..], p) {
        var i :| OccursAt(s[1..], p, i);
        assert s[i + 1..i + 1 + |p|] == s[1..][i..i + |p|];
        assert OccursAt(s, p, i + 1);
      }
      if exists i :: OccursAt(s, p, i) {
        var i :| OccursAt(s, p, i);
        assert i != 0;
        assert s[1..][i - 1..i - 1 + |p|] == s[i..i + |p|];
        assert OccursAt(s[1..], p, i - 1);
      }
    }
  }

  // ---------------------------------------------------------------------------
  // str.endswith(suffix)

  predicate EndsWith(s: string, suffix: string) {
    |suffix| <= |s| && s[|s| - |suffix|..] == suffix
  }

  // ---------------------------------------------------------------------------
  // str.replace(pat, rep): every non-overlapping occurrence, left to right.

  /** `s.replace(pat, rep)`; a string in which `pat` does not occur comes back as it is. */
  function Replace(s: string, pat: string, rep: string): (r: string)
    requires pat != []
    ensures !Contains(s, pat) ==> r == s
    decreases |s|
  {
    if |s| < |pat| then s
    else if s[..|pat|] == pat then rep + Replace(s[|pat|..], pat, rep)
    else
      assert [s[0]] + s[1..] == s;
      [s[0]] + Replace(s[1..], pat, rep)
  }

  /** A prefix at none of whose positions `pat` starts passes through `replace` unchanged. */
  lemma {:induction false} ReplaceAfterPrefix(a: string, b: string, pat: string, rep: string)
    requires pat != []
    requires forall i :: 0 <= i < |a| ==> !IsPrefix(pat, a[i..] + b)
    ensures Replace(a + b, pat, rep) == a + Replace(b, pat, rep)
    decreases |a|
  {
    if a != [] {
      assert a[0..] == a;
      assert !IsPrefix(pat, a + b);
      if |a + b| < |pat| {
        assert Replace(b, pat, rep) == b;
      } else {
        assert (a + b)[..|pat|] != pat;
        assert (a + b)[1..] == a[1..] + b;
        forall j | 0 <= j < |a[1..]|
          ensures !IsPrefix(pat, a[1..][j..] + b)
        {
          assert a[1..][j..] == a[j + 1..];
        }
        ReplaceAfterPrefix(a[1..], b, pat, rep);
        calc {
          Replace(a + b, pat, rep);
          [a[0]] + Replace(a[1..] + b, pat, rep);
          [a[0]] + (a[1..] + Replace(b, pat, rep));
          ([a[0]] + a[1..]) + Replace(b, pat, rep);
          { assert [a[0]] + a[1..] == a; }
          a + Replace(b, pat, rep);
        }
      }
    } else {
      assert a + b == b;
    }
  }

  /** `pat` starts at no position of a string that lacks its first character. */
  lemma FirstCharAbsent(a: string, b: string, pat: string)
    requires pat != [] && pat[0] !in a
    ensures forall i :: 0 <= i < |a| ==> !IsPrefix(pat, a[i..] + b)
  {
    forall i | 0 <= i < |a|
      ensures !IsPrefix(pat, a[i..] + b)
    {
      assert (a[i..] + b)[0] == a[i];
    }
  }

  /** `(stem + pat).replace(pat, rep) == stem + rep` when `pat` starts at no position of `stem`. */
  lemma ReplaceSuffix(stem: string, pat: string, rep: string)
    requires pat != []
    requires forall i :: 0 <= i < |stem| ==> !IsPrefix(pat, stem[i..] + pat)
    ensures Replace(stem + pat, pat, rep) == stem + rep
  {
    ReplaceAfterPrefix(stem, pat, pat, rep);
    assert pat[|pat|..] == [];
  }
}

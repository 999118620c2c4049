/**
 * String helpers shared by every module: Python's notion of whitespace, `strip`,
 * ASCII lower-casing, `find`, `join` and a few predicates on characters.
 */
module Text {

  datatype Option<T> = None | Some(value: T)

  /** The outcome of an operation that raises an exception in the source. */
  datatype Result<T, E> = Ok(value: T) | Err(error: E)

  /** Python's `str.isspace`, which is also the set a `\s` matches in a `str` regular expression. */
  predicate IsSpace(c: char)
  {
    c == ' ' || ('\t' <= c <= '\r') || ('\U{1C}' <= c <= '\U{1F}') || c == '\U{85}' || c == '\U{A0}'
    || c == '\U{1680}' || ('\U{2000}' <= c <= '\U{200A}') || c == '\U{2028}' || c == '\U{2029}'
    || c == '\U{202F}' || c == '\U{205F}' || c == '\U{3000}'
  }

  predicate AsciiLetter(c: char) { 'a' <= c <= 'z' || 'A' <= c <= 'Z' }

  predicate AsciiDigit(c: char) { '0' <= c <= '9' }

  /**
   * Letters and digits as Python's `isalnum` sees them, restricted to Latin-1: the ASCII letters
   * and digits, the superscript digits and fractions, and the Latin-1 letters (the accented
   * letters of Portuguese text).
   */
  predicate IsAlnum(c: char)
  {
    AsciiLetter(c) || AsciiDigit(c) || c == '\U{AA}' || c == '\U{B2}' || c == '\U{B3}'
    || c == '\U{B5}' || c == '\U{B9}' || c == '\U{BA}' || ('\U{BC}' <= c <= '\U{BE}')
    || ('\U{C0}' <= c <= '\U{FF}' && c != '\U{D7}' && c != '\U{F7}')
  }

  /** The characters a `\w` matches, under the same restriction as `IsAlnum`. */
  predicate IsWordChar(c: char) { IsAlnum(c) || c == '_' }

  /** The class `[A-Za-z0-9_]` written out in some of the source's patterns. */
  predicate IsIdentChar(c: char) { AsciiLetter(c) || AsciiDigit(c) || c == '_' }

  predicate NoSpace(s: string) { forall i :: 0 <= i < |s| ==> !IsSpace(s[i]) }

  predicate AllSpace(s: string) { forall i :: 0 <= i < |s| ==> IsSpace(s[i]) }

  /** Neither end of `s` is whitespace: what `strip` returns. */
  predicate Stripped(s: string)
  {
    s == [] || (!IsSpace(s[0]) && !IsSpace(s[|s| - 1]))
  }

  /** `s.lstrip()` */
  function TrimLeft(s: string): (r: string)
    ensures |r| <= |s|
    ensures r == [] || !IsSpace(r[0])
  {
    if s != [] && IsSpace(s[0]) then TrimLeft(s[1..]) else s
  }

  /** `lstrip` keeps a suffix of its input, and what it removes is whitespace. */
  lemma {:induction false} TrimLeftRemovesSpace(s: string)
    ensures TrimLeft(s) == s[|s| - |TrimLeft(s)|..]
    ensures AllSpace(s[..|s| - |TrimLeft(s)|])
  {
    if s != [] && IsSpace(s[0]) {
      var t := s[1..];
      TrimLeftRemovesSpace(t);
      var n := |s| - |TrimLeft(s)|;
      assert TrimLeft(s) == TrimLeft(t);
      assert s[n..] == t[|t| - |TrimLeft(t)|..];
      assert s[..n] == [s[0]] + t[..|t| - |TrimLeft(t)|];
    }
  }

  /** `s.rstrip()` */
  function TrimRight(s: string): (r: string)
    ensures |r| <= |s|
    ensures r == [] || (!IsSpace(r[|r| - 1]) && r[0] == s[0])
  {
    if s != [] && IsSpace(s[|s| - 1]) then TrimRight(s[..|s| - 1]) else s
  }

  /** `rstrip` keeps a prefix of its input, and what it removes is whitespace. */
  lemma {:induction false} TrimRightRemovesSpace(s: string)
    ensures TrimRight(s) == s[..|TrimRight(s)|]
    ensures AllSpace(s[|TrimRight(s)|..])
  {
    if s != [] && IsSpace(s[|s| - 1]) {
      var t := s[..|s| - 1];
      TrimRightRemovesSpace(t);
      var n := |TrimRight(s)|;
      assert TrimRight(s) == TrimRight(t);
      assert s[..n] == t[..n];
      assert s[n..] == t[n..] + [s[|s| - 1]];
    }
  }

  /** `s.strip()` */
  function Strip(s: string): (r: string)
    ensures |r| <= |s| && Stripped(r)
  {
    TrimRight(TrimLeft(s))
  }

  /** Stripping text that has no whitespace at either end leaves it as it is. */
  lemma StripStripped(s: string)
    requires Stripped(s)
    ensures Strip(s) == s
  {
  }

  /** Whitespace around a stripped text is exactly what `strip` removes. */
  lemma {:induction false} StripPadded(a: string, s: string, b: string)
    requires AllSpace(a) && AllSpace(b) && Stripped(s) && s != []
    ensures Strip(a + s + b) == s
  {
    var t := a + s + b;
    assert t == a + (s + b);
    assert (s + b)[0] == s[0];
    TrimLeftSpaces(a, s + b);
    assert TrimLeft(t) == s + b;
    TrimRightSpaces(s, b);
  }

  lemma {:induction false} TrimLeftSpaces(a: string, s: string)
    requires AllSpace(a) && (s == [] || !IsSpace(s[0]))
    ensures TrimLeft(a + s) == s
  {
    if a != [] {
      assert (a + s)[1..] == a[1..] + s;
      TrimLeftSpaces(a[1..], s);
    }
  }

  lemma {:induction false} TrimRightSpaces(s: string, b: string)
    requires AllSpace(b) && (s == [] || !IsSpace(s[|s| - 1]))
    ensures TrimRight(s + b) == s
  {
    if b != [] {
      assert (s + b)[..|s + b| - 1] == s + b[..|b| - 1];
      TrimRightSpaces(s, b[..|b| - 1]);
    }
  }

  function LowerChar(c: char): char
  {
    if 'A' <= c <= 'Z' then (c as int + 32) as char else c
  }

  /** `s.lower()` on ASCII letters; every other character is kept. */
  function Lower(s: string): (r: string)
    ensures |r| == |s|
  {
    seq(|s|, i requires 0 <= i < |s| => LowerChar(s[i]))
  }

  function StartsWith(s: string, prefix: string): bool
  {
    |prefix| <= |s| && s[..|prefix|] == prefix
  }

  function EndsWith(s: string, suffix: string): bool
  {
    |suffix| <= |s| && s[|s| - |suffix|..] == suffix
  }

  /** `s.find(c, start)`: the first index at or after `start` holding `c`, or -1. */
  function FindChar(s: string, c: char, start: nat): (r: int)
    ensures r == -1 || (start <= r < |s| && s[r] == c)
    decreases |s| - start
  {
    if start >= |s| then -1
    else if s[start] == c then start
    else FindChar(s, c, start + 1)
  }

  /** `find` returns the first occurrence: no `c` lies between `start` and the result. */
  lemma {:induction false} FindCharFirst(s: string, c: char, start: nat)
    ensures forall k :: start <= k < |s| && (FindChar(s, c, start) == -1 || k < FindChar(s, c, start)) ==> s[k] != c
    decreases |s| - start
  {
    if start < |s| && s[start] != c {
      FindCharFirst(s, c, start + 1);
    }
  }

  /** `sep.join(parts)` */
  function JoinWith(parts: seq<string>, sep: string): string
  {
    if parts == [] then ""
    else if |parts| == 1 then parts[0]
    else parts[0] + sep + JoinWith(parts[1..], sep)
  }

  /** With a non-empty separator, the join is empty only for no pieces or one empty piece. */
  lemma JoinWithEmpty(parts: seq<string>, sep: string)
    requires sep != []
    ensures JoinWith(parts, sep) == [] <==> parts == [] || parts == [[]]
  {
    if |parts| >= 2 {
      assert |JoinWith(parts, sep)| >= |sep|;
    } else if |parts| == 1 {
      assert parts == [parts[0]];
    }
  }

  /** The text before the first occurrence of `c`, all of `s` when there is none (`s.split(c)[0]`). */
  function BeforeFirst(s: string, c: char): (r: string)
    ensures |r| <= |s| && r == s[..|r|]
    ensures |r| < |s| ==> s[|r|] == c
  {
    if s == [] then []
    else if s[0] == c then []
    else
      var rest := BeforeFirst(s[1..], c);
      assert s[..|rest| + 1] == [s[0]] + s[1..][..|rest|];
      [s[0]] + rest
  }

  lemma {:induction false} BeforeFirstExcludes(s: string, c: char)
    ensures c !in BeforeFirst(s, c)
  {
    if s != [] && s[0] != c {
      BeforeFirstExcludes(s[1..], c);
    }
  }

  /** The text after the first occurrence of `c` (the second half of `s.split(c, 1)`). */
  function AfterFirst(s: string, c: char): string
  {
    var b := BeforeFirst(s, c);
    if |b| < |s| then s[|b| + 1..] else []
  }

  /** `s.split(c, 1)` loses nothing: the two halves around the first `c` make up `s`. */
  lemma SplitFirstJoins(s: string, c: char)
    requires c in s
    ensures s == BeforeFirst(s, c) + [c] + AfterFirst(s, c)
  {
    var b := BeforeFirst(s, c);
    BeforeFirstExcludes(s, c);
    assert s == s[..|b|] + [s[|b|]] + s[|b| + 1..];
  }

  /** `s.split(c)`: the pieces between the occurrences of `c`, at least one. */
  function SplitOn(s: string, c: char): (parts: seq<string>)
    ensures |parts| >= 1
    decreases |s|
  {
    var b := BeforeFirst(s, c);
    if |b| == |s| then [s] else [b] + SplitOn(s[|b| + 1..], c)
  }

  /** Joining the pieces of `s.split(c)` with `c` gives back `s`, and no piece holds a `c`. */
  lemma {:induction false} SplitOnJoins(s: string, c: char)
    ensures JoinWith(SplitOn(s, c), [c]) == s
    ensures forall k :: 0 <= k < |SplitOn(s, c)| ==> c !in SplitOn(s, c)[k]
    decreases |s|
  {
    var b := BeforeFirst(s, c);
    BeforeFirstExcludes(s, c);
    if |b| < |s| {
      var rest := s[|b| + 1..];
      SplitOnJoins(rest, c);
      assert s == b + [c] + rest;
      assert SplitOn(s, c) == [b] + SplitOn(rest, c);
      assert SplitOn(s, c)[1..] == SplitOn(rest, c);
    } else {
      assert b == s;
    }
  }

  /** Every piece stripped, as `[x.strip() for x in parts]`. */
  function StripAll(parts: seq<string>): (r: seq<string>)
    ensures |r| == |parts|
  {
    seq(|parts|, i requires 0 <= i < |parts| => Strip(parts[i]))
  }
}

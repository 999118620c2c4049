/**
 * `formatar_algebra_relacional`: whitespace normalisation of relational-algebra text, as five
 * regular-expression substitutions followed by `strip`. Each substitution is written out as the
 * left-to-right scan the regular-expression engine performs.
 */
module AlgebraFormat {
  import opened Text

  /** `re.sub(r'\s+', ' ', s)`: every run of whitespace becomes one space. */
  function Collapse(s: string): (r: string)
    ensures |r| <= |s|
    decreases |s|
  {
    if s == [] then []
    else if IsSpace(s[0]) then " " + Collapse(TrimLeft(s[1..]))
    else [s[0]] + Collapse(s[1..])
  }

  /** `re.sub(r'\(\s+', '(', s)` with `open` for `(`: whitespace right after `open` goes. */
  function DropAfter(s: string, open: char): (r: string)
    ensures |r| <= |s|
    ensures r != [] ==> s != [] && r[0] == s[0]
    decreases |s|
  {
    if s == [] then []
    else if s[0] == open then [open] + DropAfter(TrimLeft(s[1..]), open)
    else [s[0]] + DropAfter(s[1..], open)
  }

  /** `re.sub(r'\s+\)', ')', s)` with `close` for `)`: a whitespace run right before `close` goes;
      any other run is kept as it is. */
  function DropBefore(s: string, close: char): (r: string)
    ensures |r| <= |s|
    ensures r != [] ==> s != [] && (r[0] == s[0] || r[0] == close)
    decreases |s|
  {
    if s == [] then []
    else if IsSpace(s[0]) then
      var rest := TrimLeft(s[1..]);
      if rest != [] && rest[0] == close then DropBefore(rest, close)
      else s[..|s| - |rest|] + DropBefore(rest, close)
    else [s[0]] + DropBefore(s[1..], close)
  }

  /** `formatar_algebra_relacional(algebra)`: never longer than its input, and with no
      whitespace at either end (see `FormatFormatted` for the rest of what it promises). */
  function Format(algebra: string): (r: string)
    ensures |r| <= |algebra| && Stripped(r)
  {
    Strip(DropBefore(DropAfter(DropBefore(DropAfter(Collapse(algebra), '('), ')'), '['), ']'))
  }

  // ---------------------------------------------------------------------------------------------
  // What the formatted text looks like

  /** Whitespace is single spaces only; no space follows a character of `opens` and none precedes
      a character of `closes`. */
  predicate Tidy(s: string, opens: set<char>, closes: set<char>)
  {
    (forall i :: 0 <= i < |s| && IsSpace(s[i]) ==> s[i] == ' ')
    && (forall i :: 0 <= i < |s| - 1 && s[i] == ' ' ==> s[i + 1] != ' ')
    && (forall i :: 0 <= i < |s| - 1 && s[i] in opens ==> s[i + 1] != ' ')
    && (forall i :: 0 <= i < |s| - 1 && s[i + 1] in closes ==> s[i] != ' ')
  }

  /** What the source promises of its output: no whitespace at either end, single spaces only, and
      no space just inside a parenthesis or a bracket. */
  predicate Formatted(s: string)
  {
    Stripped(s) && Tidy(s, {'(', '['}, {')', ']'})
  }

  /** A character in front of tidy text keeps it tidy when the new pair is allowed. */
  lemma TidyCons(x: char, r: string, opens: set<char>, closes: set<char>)
    requires Tidy(r, opens, closes) && (IsSpace(x) ==> x == ' ')
    requires r != [] ==> !(x == ' ' && r[0] == ' ') && !(x in opens && r[0] == ' ') && !(x == ' ' && r[0] in closes)
    ensures Tidy([x] + r, opens, closes)
  {
    var s := [x] + r;
    assert forall i :: 1 <= i < |s| ==> s[i] == r[i - 1];
  }

  /** Any part of tidy text is tidy. */
  lemma TidySlice(s: string, a: nat, b: nat, opens: set<char>, closes: set<char>)
    requires a <= b <= |s| && Tidy(s, opens, closes)
    ensures Tidy(s[a..b], opens, closes)
  {
    var t := s[a..b];
    assert forall i :: 0 <= i < |t| ==> t[i] == s[a + i];
  }

  lemma {:induction false} CollapseTidy(s: string)
    ensures Tidy(Collapse(s), {}, {})
    ensures Collapse(s) != [] ==> s != [] && (Collapse(s)[0] == s[0] || (IsSpace(s[0]) && Collapse(s)[0] == ' '))
    decreases |s|
  {
    if s == [] {
    } else if IsSpace(s[0]) {
      var rest := TrimLeft(s[1..]);
      CollapseTidy(rest);
      TidyCons(' ', Collapse(rest), {}, {});
    } else {
      CollapseTidy(s[1..]);
      TidyCons(s[0], Collapse(s[1..]), {}, {});
    }
  }

  lemma {:induction false} DropAfterTidy(s: string, open: char, opens: set<char>, closes: set<char>)
    requires Tidy(s, opens, closes) && !IsSpace(open)
    ensures Tidy(DropAfter(s, open), opens + {open}, closes)
    decreases |s|
  {
    if s == [] {
    } else if s[0] == open {
      var rest := TrimLeft(s[1..]);
      TrimLeftRemovesSpace(s[1..]);
      TidySlice(s, |s| - |rest|, |s|, opens, closes);
      assert rest == s[|s| - |rest|..];
      DropAfterTidy(rest, open, opens, closes);
      TidyCons(open, DropAfter(rest, open), opens + {open}, closes);
    } else {
      TidySlice(s, 1, |s|, opens, closes);
      DropAfterTidy(s[1..], open, opens, closes);
      TidyCons(s[0], DropAfter(s[1..], open), opens + {open}, closes);
    }
  }

  lemma {:induction false} DropBeforeTidy(s: string, close: char, opens: set<char>, closes: set<char>)
    requires Tidy(s, opens, closes) && !IsSpace(close)
    ensures Tidy(DropBefore(s, close), opens, closes + {close})
    decreases |s|
  {
    if s == [] {
    } else if IsSpace(s[0]) {
      var rest := TrimLeft(s[1..]);
      assert rest == s[1..] by {
        if |s| > 1 { assert !IsSpace(s[1]); }
      }
      TidySlice(s, 1, |s|, opens, closes);
      DropBeforeTidy(rest, close, opens, closes);
      if !(rest != [] && rest[0] == close) {
        assert s[..|s| - |rest|] == [' '];
        TidyCons(' ', DropBefore(rest, close), opens, closes + {close});
      }
    } else {
      TidySlice(s, 1, |s|, opens, closes);
      DropBeforeTidy(s[1..], close, opens, closes);
      TidyCons(s[0], DropBefore(s[1..], close), opens, closes + {close});
    }
  }

  lemma StripTidy(s: string, opens: set<char>, closes: set<char>)
    requires Tidy(s, opens, closes)
    ensures Tidy(Strip(s), opens, closes)
  {
    var t := TrimLeft(s);
    TrimLeftRemovesSpace(s);
    TidySlice(s, |s| - |t|, |s|, opens, closes);
    TrimRightRemovesSpace(t);
    TidySlice(t, 0, |TrimRight(t)|, opens, closes);
  }

  // ---------------------------------------------------------------------------------------------
  // Formatted text is left as it is

  lemma {:induction false} CollapseKeeps(s: string, opens: set<char>, closes: set<char>)
    requires Tidy(s, opens, closes)
    ensures Collapse(s) == s
    decreases |s|
  {
    if s != [] {
      TidySlice(s, 1, |s|, opens, closes);
      if IsSpace(s[0]) {
        assert TrimLeft(s[1..]) == s[1..] by {
          if |s| > 1 { assert !IsSpace(s[1]); }
        }
      }
      CollapseKeeps(s[1..], opens, closes);
    }
  }

  lemma {:induction false} DropAfterKeeps(s: string, open: char, opens: set<char>, closes: set<char>)
    requires Tidy(s, opens, closes) && open in opens
    ensures DropAfter(s, open) == s
    decreases |s|
  {
    if s != [] {
      TidySlice(s, 1, |s|, opens, closes);
      if s[0] == open {
        assert TrimLeft(s[1..]) == s[1..] by {
          if |s| > 1 { assert !IsSpace(s[1]); }
        }
      }
      DropAfterKeeps(s[1..], open, opens, closes);
    }
  }

  lemma {:induction false} DropBeforeKeeps(s: string, close: char, opens: set<char>, closes: set<char>)
    requires Tidy(s, opens, closes) && close in closes
    ensures DropBefore(s, close) == s
    decreases |s|
  {
    if s != [] {
      TidySlice(s, 1, |s|, opens, closes);
      DropBeforeKeeps(s[1..], close, opens, closes);
      if IsSpace(s[0]) {
        assert TrimLeft(s[1..]) == s[1..] by {
          if |s| > 1 { assert !IsSpace(s[1]); }
        }
        assert s[..|s| - |s[1..]|] == [s[0]];
      }
    }
  }

  /** Whatever the input, the output of `formatar_algebra_relacional` is formatted text. */
  lemma FormatFormatted(algebra: string)
    ensures Formatted(Format(algebra))
  {
    var c := Collapse(algebra);
    CollapseTidy(algebra);
    var p1 := DropAfter(c, '(');
    DropAfterTidy(c, '(', {}, {});
    var p2 := DropBefore(p1, ')');
    DropBeforeTidy(p1, ')', {} + {'('}, {});
    var p3 := DropAfter(p2, '[');
    DropAfterTidy(p2, '[', {} + {'('}, {} + {')'});
    var p4 := DropBefore(p3, ']');
    DropBeforeTidy(p3, ']', {} + {'('} + {'['}, {} + {')'});
    assert {} + {'('} + {'['} == {'(', '['};
    assert {} + {')'} + {']'} == {')', ']'};
    StripTidy(p4, {'(', '['}, {')', ']'});
  }

  /** Formatted text is a fixed point: `formatar_algebra_relacional` changes nothing in it. */
  lemma FormatKeeps(s: string)
    requires Formatted(s)
    ensures Format(s) == s
  {
    var opens, closes := {'(', '['}, {')', ']'};
    CollapseKeeps(s, opens, closes);
    DropAfterKeeps(s, '(', opens, closes);
    DropBeforeKeeps(s, ')', opens, closes);
    DropAfterKeeps(s, '[', opens, closes);
    DropBeforeKeeps(s, ']', opens, closes);
    StripStripped(s);
  }

  /** Formatting twice is formatting once. */
  lemma FormatIdempotent(algebra: string)
    ensures Format(Format(algebra)) == Format(algebra)
  {
    FormatFormatted(algebra);
    FormatKeeps(Format(algebra));
  }
}

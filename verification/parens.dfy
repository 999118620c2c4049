/**
 * Parenthesis counting shared by the three scanners of the source that look for the
 * parenthesis closing an opening one: a running count that goes up at `(` and down at `)`.
 */
module Parens {

  function Delta(c: char): int
  {
    if c == '(' then 1 else if c == ')' then -1 else 0
  }

  /** Number of `(` minus number of `)` in `s`. */
  function Balance(s: string): int
  {
    if s == [] then 0 else Balance(s[..|s| - 1]) + Delta(s[|s| - 1])
  }

  lemma {:induction false} BalanceConcat(a: string, b: string)
    ensures Balance(a + b) == Balance(a) + Balance(b)
  {
    if b == [] {
      assert a + b == a;
    } else {
      assert (a + b)[..|a + b| - 1] == a + b[..|b| - 1];
      BalanceConcat(a, b[..|b| - 1]);
    }
  }

  lemma BalanceChar(c: char)
    ensures Balance([c]) == Delta(c)
  {
    assert [c][..0] == [];
  }

  /** Counting from position `i` on is counting `s[i]` and then the rest. */
  lemma BalanceFront(s: string, i: nat)
    requires i < |s|
    ensures forall k :: i < k <= |s| ==> Balance(s[i..k]) == Delta(s[i]) + Balance(s[i + 1..k])
  {
    forall k | i < k <= |s|
      ensures Balance(s[i..k]) == Delta(s[i]) + Balance(s[i + 1..k])
    {
      assert s[i..k] == [s[i]] + s[i + 1..k];
      BalanceConcat([s[i]], s[i + 1..k]);
      BalanceChar(s[i]);
    }
  }

  /**
   * The first index `j >= i` at which a count that starts at `depth` before `s[i]` reaches zero
   * once `s[j]` is counted; `|s|` when it never does.
   */
  function FirstZero(s: string, i: nat, depth: int): (j: nat)
    requires i <= |s|
    ensures i <= j <= |s|
    decreases |s| - i
  {
    if i == |s| then |s|
    else if depth + Delta(s[i]) == 0 then i
    else FirstZero(s, i + 1, depth + Delta(s[i]))
  }

  /** The count reaches zero at `FirstZero` (when that is inside `s`) and nowhere before it. */
  lemma {:induction false} FirstZeroSpec(s: string, i: nat, depth: int)
    requires i <= |s|
    ensures FirstZero(s, i, depth) < |s| ==> depth + Balance(s[i..FirstZero(s, i, depth) + 1]) == 0
    ensures forall k :: i < k <= FirstZero(s, i, depth) ==> depth + Balance(s[i..k]) != 0
    decreases |s| - i
  {
    if i < |s| {
      BalanceFront(s, i);
      assert s[i..i + 1] == [s[i]];
      BalanceChar(s[i]);
      if depth + Delta(s[i]) != 0 {
        FirstZeroSpec(s, i + 1, depth + Delta(s[i]));
      }
    }
  }

  /**
   * Balanced text: as many `(` as `)`, and no prefix closes more than it opened. The conditions of
   * relational-algebra text, written with parentheses around sub-conditions, are balanced.
   */
  predicate Balanced(s: string)
  {
    Balance(s) == 0 && forall k :: 0 <= k <= |s| ==> Balance(s[..k]) >= 0
  }

  /** A count that starts at `depth > 0` stays positive all through balanced text. */
  lemma FirstZeroSkipsBalanced(s: string, i: nat, b: string, depth: int)
    requires depth > 0 && i + |b| <= |s| && s[i..i + |b|] == b && Balanced(b)
    ensures FirstZero(s, i, depth) >= i + |b|
    ensures FirstZero(s, i, depth) == FirstZero(s, i + |b|, depth)
  {
    FirstZeroSkipsBalancedFrom(s, i, b, depth, depth);
  }

  /** Text whose prefixes all keep the count at or above `off` keeps it there after its first
      character too. */
  predicate StaysAbove(b: string, off: int)
  {
    forall k :: 0 <= k <= |b| ==> off + Balance(b[..k]) >= 0
  }

  lemma StaysAboveTail(b: string, off: int)
    requires b != [] && StaysAbove(b, off)
    ensures off + Delta(b[0]) >= 0 && StaysAbove(b[1..], off + Delta(b[0]))
    ensures Balance(b) == Delta(b[0]) + Balance(b[1..])
  {
    BalanceChar(b[0]);
    assert b[..1] == [b[0]];
    var b' := b[1..];
    forall k | 0 <= k <= |b'|
      ensures off + Delta(b[0]) + Balance(b'[..k]) >= 0
    {
      assert b[..k + 1] == [b[0]] + b'[..k];
      BalanceConcat([b[0]], b'[..k]);
    }
    assert b == [b[0]] + b';
    BalanceConcat([b[0]], b');
  }

  /**
   * The general form of `FirstZeroSkipsBalanced`: text whose prefixes keep an offset `off >= 0`
   * above zero and end at offset zero is skipped by any positive count `base`.
   */
  lemma {:induction false} FirstZeroSkipsBalancedFrom(s: string, i: nat, b: string, depth: int, base: int)
    requires base > 0 && i + |b| <= |s| && s[i..i + |b|] == b
    requires depth - base >= 0 && StaysAbove(b, depth - base) && (depth - base) + Balance(b) == 0
    ensures FirstZero(s, i, depth) >= i + |b|
    ensures FirstZero(s, i, depth) == FirstZero(s, i + |b|, base)
    decreases |b|
  {
    if b != [] {
      assert b[0] == s[i];
      StaysAboveTail(b, depth - base);
      assert s[i + 1..i + 1 + |b[1..]|] == b[1..];
      FirstZeroSkipsBalancedFrom(s, i + 1, b[1..], depth + Delta(b[0]), base);
    }
  }

  /** Two balanced texts side by side are balanced. */
  lemma BalancedConcat(a: string, b: string)
    requires Balanced(a) && Balanced(b)
    ensures Balanced(a + b)
  {
    BalanceConcat(a, b);
    forall k | 0 <= k <= |a + b|
      ensures Balance((a + b)[..k]) >= 0
    {
      if k <= |a| {
        assert (a + b)[..k] == a[..k];
      } else {
        assert (a + b)[..k] == a + b[..k - |a|];
        BalanceConcat(a, b[..k - |a|]);
      }
    }
  }

  /** Parenthesising balanced text keeps it balanced. */
  lemma BalancedWrap(b: string)
    requires Balanced(b)
    ensures Balanced("(" + b + ")")
  {
    var s := "(" + b + ")";
    BalanceConcat("(" + b, ")");
    BalanceConcat("(", b);
    BalanceChar('(');
    BalanceChar(')');
    forall k | 0 <= k <= |s|
      ensures Balance(s[..k]) >= 0
    {
      if k == 0 {
        assert s[..k] == [];
      } else if k <= |b| + 1 {
        assert s[..k] == "(" + b[..k - 1];
        BalanceConcat("(", b[..k - 1]);
      } else {
        assert s[..k] == s;
      }
    }
  }

  /** Text without parentheses is balanced. */
  lemma {:induction false} BalancedPlain(s: string)
    requires '(' !in s && ')' !in s
    ensures Balanced(s)
  {
    if s != [] {
      var init := s[..|s| - 1];
      assert '(' !in init && ')' !in init;
      BalancedPlain(init);
      forall k | 0 <= k <= |s|
        ensures Balance(s[..k]) >= 0
      {
        if k < |s| {
          assert s[..k] == init[..k];
        } else {
          assert s[..k] == s;
        }
      }
    }
  }

  /** Started above zero, the count stays above zero until it reaches zero, which only a `)` can
      make it do. */
  lemma {:induction false} FirstZeroPositive(s: string, i: nat, depth: int)
    requires i <= |s| && depth > 0
    ensures FirstZero(s, i, depth) < |s| ==> s[FirstZero(s, i, depth)] == ')'
    ensures forall k :: i <= k <= FirstZero(s, i, depth) ==> depth + Balance(s[i..k]) > 0
    decreases |s| - i
  {
    assert s[i..i] == [];
    if i < |s| && depth + Delta(s[i]) != 0 {
      FirstZeroPositive(s, i + 1, depth + Delta(s[i]));
      BalanceFront(s, i);
    }
  }

  /** Text read from a count of `off` that never takes the count below zero and brings it back
      to zero; balanced text is the case `off == 0`. */
  predicate Settles(s: string, off: int)
  {
    StaysAbove(s, off) && off + Balance(s) == 0
  }

  /** Reading `a` then `b` from `off` stays at or above zero when each part does, `b` from where
      `a` left the count. */
  lemma StaysAboveJoin(a: string, b: string, off: int)
    requires StaysAbove(a, off) && StaysAbove(b, off + Balance(a))
    ensures StaysAbove(a + b, off)
  {
    forall k | 0 <= k <= |a + b|
      ensures off + Balance((a + b)[..k]) >= 0
    {
      if k <= |a| {
        assert (a + b)[..k] == a[..k];
      } else {
        assert (a + b)[..k] == a + b[..k - |a|];
        BalanceConcat(a, b[..k - |a|]);
      }
    }
  }

  /** And the other way round. */
  lemma StaysAboveCut(a: string, b: string, off: int)
    requires StaysAbove(a + b, off)
    ensures StaysAbove(a, off) && StaysAbove(b, off + Balance(a))
  {
    forall k | 0 <= k <= |a|
      ensures off + Balance(a[..k]) >= 0
    {
      assert (a + b)[..k] == a[..k];
    }
    forall k | 0 <= k <= |b|
      ensures off + Balance(a) + Balance(b[..k]) >= 0
    {
      assert (a + b)[..|a| + k] == a + b[..k];
      BalanceConcat(a, b[..k]);
    }
  }

  /** Balanced text read from a count that is not below zero keeps it there. */
  lemma BalancedAbove(s: string, off: int)
    requires Balanced(s) && off >= 0
    ensures StaysAbove(s, off)
  {
  }

  /** Text that settles `off`, cut in two: the first part stays at or above zero and the second
      settles the count the first leaves. */
  lemma SettlesCut(a: string, b: string, off: int)
    requires Settles(a + b, off)
    ensures StaysAbove(a, off) && Settles(b, off + Balance(a)) && off + Balance(a) >= 0
  {
    StaysAboveCut(a, b, off);
    BalanceConcat(a, b);
    assert b[..0] == [];
  }

  /** A part that stays at or above zero followed by one that settles where the first leaves
      the count: the whole settles. */
  lemma SettlesJoin(a: string, b: string, off: int)
    requires StaysAbove(a, off) && Settles(b, off + Balance(a))
    ensures Settles(a + b, off)
  {
    StaysAboveJoin(a, b, off);
    BalanceConcat(a, b);
  }

  /** Balanced text put between a part that stays at or above zero and one that settles where the
      first leaves the count: the whole settles. */
  lemma SettlesAround(a: string, n: string, b: string, off: int)
    requires StaysAbove(a, off) && off + Balance(a) >= 0 && Balanced(n) && Settles(b, off + Balance(a))
    ensures Settles(a + n + b, off)
  {
    var d, m := off + Balance(a), n + b;
    assert a + n + b == a + m;
    BalancedAbove(n, d);
    assert d + Balance(n) == d;
    SettlesJoin(n, b, d);
    SettlesJoin(a, m, off);
  }
}

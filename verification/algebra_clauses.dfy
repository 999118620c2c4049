/**
 * The small text helpers of the algebra rewrites: cutting out a parenthesised group with its
 * parentheses, splitting a condition at its top-level conjunctions, and the two alias scans
 * (`Alias.field` in a condition, `Table[Alias]` in an expression).
 */
module AlgebraClauses {
  import opened Text
  import opened Parens
  import opened TreeBuilder

  // ---------------------------------------------------------------------------------------------
  // `extrair_subexpressao`, the variant that keeps the parentheses

  /** The index just past the `)` that closes the `(` at `start`, or the end of the text when
      nothing closes it. */
  function GroupEnd(expr: string, start: nat): (end: nat)
    requires start < |expr|
    ensures start < end <= |expr|
  {
    if CloseOf(expr, start) < |expr| then CloseOf(expr, start) + 1 else |expr|
  }

  /** `extrair_subexpressao(expr, inicio)`: scans with a counter from the `(` at `inicio` and
      returns the group with its parentheses and the index after it. */
  method Subexpression(expr: string, start: nat) returns (sub: string, end: nat)
    requires start < |expr| && expr[start] == '('
    ensures end == GroupEnd(expr, start) && sub == expr[start..end]
  {
    var count := 1;
    end := start + 1;
    ghost var close := CloseOf(expr, start);
    while end < |expr| && count > 0
      invariant start + 1 <= end <= |expr|
      invariant count > 0 ==> FirstZero(expr, end, count) == close
      invariant count <= 0 ==> close < |expr| && end == close + 1
      decreases |expr| - end
    {
      if expr[end] == '(' {
        count := count + 1;
      } else if expr[end] == ')' {
        count := count - 1;
      }
      end := end + 1;
    }
    sub := expr[start..end];
  }

  /** `s[1:-1]`: the text without its first and last character, empty when that leaves nothing. */
  function Inner(s: string): (r: string)
    ensures |s| >= 2 ==> |r| == |s| - 2
    ensures |r| < |s| || s == []
  {
    if |s| >= 2 then s[1..|s| - 1] else []
  }

  /** A closed group is `(`, a balanced text and its `)`; an unclosed one runs to the end. */
  lemma GroupShape(expr: string, start: nat)
    requires start < |expr| && expr[start] == '('
    ensures CloseOf(expr, start) < |expr| ==>
      expr[start..GroupEnd(expr, start)] == "(" + Between(expr, start) + ")"
      && Balanced(Between(expr, start))
    ensures CloseOf(expr, start) >= |expr| ==>
      GroupEnd(expr, start) == |expr| && expr[start..] == "(" + Between(expr, start)
  {
    var close := CloseOf(expr, start);
    CloseOfMatches(expr, start);
    if close < |expr| {
      var b := Between(expr, start);
      assert expr[start..close + 1] == "(" + b + ")" by {
        Bracketed(expr, start, close);
      }
      assert b + ")" == expr[start + 1..close + 1];
      BalanceConcat(b, ")");
      forall k | 0 <= k <= |b|
        ensures Balance(b[..k]) >= 0
      {
        assert b[..k] == expr[start + 1..start + 1 + k];
        if k > 0 {
          assert StillOpen(expr, start, start + 1 + k);
        }
      }
    } else {
      assert expr[start..] == "(" + expr[start + 1..];
    }
  }

  lemma Bracketed(s: string, i: nat, j: nat)
    requires i < j < |s|
    ensures s[i..j + 1] == [s[i]] + s[i + 1..j] + [s[j]]
  {
  }

  /** A parenthesised balanced text is cut out whole, wherever it stands. */
  lemma GroupOfBalanced(p: string, b: string, t: string)
    requires Balanced(b)
    ensures var s := p + "(" + b + ")" + t;
      GroupEnd(s, |p|) == |p| + |b| + 2 && s[|p|..GroupEnd(s, |p|)] == "(" + b + ")"
      && Inner(s[|p|..GroupEnd(s, |p|)]) == b
  {
    var s := p + "(" + b + ")" + t;
    var u := "(" + b + ")" + t;
    assert s == p + u;
    BetweenBalanced(b, t);
    assert CloseOf(u, 0) == |b| + 1;
    CloseShift(p, u);
    assert CloseOf(s, |p|) == |p| + |b| + 1 < |s|;
    assert s[|p|..|p| + |b| + 2] == u[..|b| + 2] == "(" + b + ")";
    assert Inner("(" + b + ")") == b;
  }

  /** The closing parenthesis does not depend on the text in front of the group. */
  lemma CloseShift(p: string, u: string)
    requires u != []
    ensures CloseOf(p + u, |p|) == |p| + CloseOf(u, 0)
  {
    FirstZeroShift(p + u, |p| + 1, |p|, 1);
  }

  lemma {:induction false} FirstZeroShift(s: string, i: nat, off: nat, depth: int)
    requires off <= i <= |s|
    ensures FirstZero(s, i, depth) == off + FirstZero(s[off..], i - off, depth)
    decreases |s| - i
  {
    if i < |s| {
      assert s[off..][i - off] == s[i];
      FirstZeroShift(s, i + 1, off, depth + Delta(s[i]));
    }
  }

  // ---------------------------------------------------------------------------------------------
  // `quebrar_por_conjuncao`

  /** The pieces of `s` between the conjunctions `∧` met while the parenthesis count, which starts
      at `depth`, is zero. There is always at least one piece. */
  function Pieces(s: string, depth: int): (ps: seq<string>)
    ensures |ps| >= 1
    decreases |s|
  {
    if s == [] then [[]]
    else if s[0] == '∧' && depth == 0 then [[]] + Pieces(s[1..], 0)
    else
      var ps := Pieces(s[1..], depth + Delta(s[0]));
      [[s[0]] + ps[0]] + ps[1..]
  }

  /** Every piece stripped, the last one left out when nothing remains of it. */
  function Cleaned(ps: seq<string>): seq<string>
    requires |ps| >= 1
  {
    if |ps| == 1 then (if Strip(ps[0]) != [] then [Strip(ps[0])] else [])
    else [Strip(ps[0])] + Cleaned(ps[1..])
  }

  /** The simple conditions of a compound condition. */
  function Conjuncts(condition: string): seq<string>
  {
    Cleaned(Pieces(condition, 0))
  }

  /** The parts still to come once `current` has been read and `rest` remains at count `depth`. */
  function Pending(current: string, rest: string, depth: int): seq<string>
  {
    var ps := Pieces(rest, depth);
    Cleaned([current + ps[0]] + ps[1..])
  }

  /** One character read: a cut, or the character joins the first piece. */
  lemma PiecesCons(x: char, s: string, depth: int)
    ensures x == '∧' && depth == 0 ==> Pieces([x] + s, depth) == [[]] + Pieces(s, 0)
    ensures !(x == '∧' && depth == 0) ==>
      Pieces([x] + s, depth) == [[x] + Pieces(s, depth + Delta(x))[0]] + Pieces(s, depth + Delta(x))[1..]
  {
    assert ([x] + s)[1..] == s;
  }

  lemma CleanedCons(x: string, ps: seq<string>)
    requires |ps| >= 1
    ensures Cleaned([x] + ps) == [Strip(x)] + Cleaned(ps)
  {
    assert ([x] + ps)[1..] == ps;
  }

  lemma PendingStep(current: string, rest: string, depth: int)
    requires rest != []
    ensures rest[0] == '∧' && depth == 0 ==>
      Pending(current, rest, depth) == [Strip(current)] + Pending([], rest[1..], 0)
    ensures !(rest[0] == '∧' && depth == 0) ==>
      Pending(current, rest, depth) == Pending(current + [rest[0]], rest[1..], depth + Delta(rest[0]))
  {
    assert rest == [rest[0]] + rest[1..];
    PiecesCons(rest[0], rest[1..], depth);
    if rest[0] == '∧' && depth == 0 {
      var qs := Pieces(rest[1..], 0);
      assert current + [] == current;
      CleanedCons(current, qs);
      assert [] + qs[0] == qs[0] && [qs[0]] + qs[1..] == qs;
    } else {
      var qs := Pieces(rest[1..], depth + Delta(rest[0]));
      assert current + ([rest[0]] + qs[0]) == (current + [rest[0]]) + qs[0];
    }
  }

  /** The parts the scan of `quebrar_por_conjuncao` ends with, from the parts `done`, the text
      `current` and the count `depth` it has when `rest` is still to be read. */
  function ScanFrom(done: seq<string>, current: string, rest: string, depth: int): seq<string>
    decreases |rest|
  {
    if rest == [] then done + (if Strip(current) != [] then [Strip(current)] else [])
    else if rest[0] == '∧' && depth == 0 then ScanFrom(done + [Strip(current)], [], rest[1..], 0)
    else ScanFrom(done, current + [rest[0]], rest[1..], depth + Delta(rest[0]))
  }

  /** The scan cuts at the conjunctions at count zero and nowhere else. */
  lemma {:induction false} ScanFromPending(done: seq<string>, current: string, rest: string, depth: int)
    ensures ScanFrom(done, current, rest, depth) == done + Pending(current, rest, depth)
    decreases |rest|
  {
    if rest == [] {
      assert current + [] == current;
    } else {
      PendingStep(current, rest, depth);
      if rest[0] == '∧' && depth == 0 {
        ScanFromPending(done + [Strip(current)], [], rest[1..], 0);
      } else {
        ScanFromPending(done, current + [rest[0]], rest[1..], depth + Delta(rest[0]));
      }
    }
  }

  /** `quebrar_por_conjuncao(condicao)`: reads the condition once, counting parentheses, and cuts
      at every `∧` met at count zero. */
  method SplitConjunction(condition: string) returns (parts: seq<string>)
    ensures parts == Conjuncts(condition)
  {
    parts := [];
    var current := "";
    var depth := 0;
    var i := 0;
    assert condition[0..] == condition;
    while i < |condition|
      invariant 0 <= i <= |condition|
      invariant ScanFrom(parts, current, condition[i..], depth) == ScanFrom([], [], condition, 0)
    {
      var c := condition[i];
      assert condition[i..][1..] == condition[i + 1..];
      if c == '(' {
        depth := depth + 1;
        current := current + [c];
      } else if c == ')' {
        depth := depth - 1;
        current := current + [c];
      } else if depth == 0 && c == '∧' {
        parts := parts + [Strip(current)];
        current := "";
        i := i + 1;
        continue;
      } else {
        current := current + [c];
      }
      i := i + 1;
    }
    assert condition[i..] == [];
    ghost var total := ScanFrom([], [], condition, 0);
    assert total == parts + (if Strip(current) != [] then [Strip(current)] else []);
    if Strip(current) != [] {
      parts := parts + [Strip(current)];
    } else {
      assert parts + [] == parts;
    }
    ScanFromPending([], [], condition, 0);
    ghost var ps := Pieces(condition, 0);
    assert [] + ps[0] == ps[0] && [ps[0]] + ps[1..] == ps;
    assert total == [] + Pending([], condition, 0) == Conjuncts(condition);
  }

  /** Gluing the pieces back together with `∧` gives the condition back. */
  lemma {:induction false} PiecesJoin(s: string, depth: int)
    ensures JoinWith(Pieces(s, depth), "∧") == s
    decreases |s|
  {
    if s != [] {
      var x, t := s[0], s[1..];
      assert s == [x] + t;
      PiecesCons(x, t, depth);
      if x == '∧' && depth == 0 {
        PiecesJoin(t, 0);
        JoinFront([], Pieces(t, 0));
      } else {
        var qs := Pieces(t, depth + Delta(x));
        PiecesJoin(t, depth + Delta(x));
        assert qs == [qs[0]] + qs[1..];
        JoinGrow(x, qs[0], qs[1..]);
      }
    }
  }

  lemma JoinFront(x: string, ps: seq<string>)
    ensures ps != [] ==> JoinWith([x] + ps, "∧") == x + "∧" + JoinWith(ps, "∧")
    ensures ps == [] ==> JoinWith([x] + ps, "∧") == x
  {
    assert ([x] + ps)[1..] == ps;
  }

  /** A character added to the first piece is added in front of the join. */
  lemma JoinGrow(x: char, q: string, tail: seq<string>)
    ensures JoinWith([[x] + q] + tail, "∧") == [x] + JoinWith([q] + tail, "∧")
  {
    JoinFront([x] + q, tail);
    JoinFront(q, tail);
  }

  /** Every `∧` left inside a piece stands within parentheses: the count is not zero there. */
  lemma {:induction false} PiecesNested(s: string, depth: int)
    ensures forall j :: 0 <= j < |Pieces(s, depth)[0]| && Pieces(s, depth)[0][j] == '∧' ==>
      depth + Balance(Pieces(s, depth)[0][..j]) != 0
    ensures forall k, j :: 1 <= k < |Pieces(s, depth)| && 0 <= j < |Pieces(s, depth)[k]| && Pieces(s, depth)[k][j] == '∧' ==>
      Balance(Pieces(s, depth)[k][..j]) != 0
    decreases |s|
  {
    if s == [] {
    } else if s[0] == '∧' && depth == 0 {
      PiecesNested(s[1..], 0);
      var qs := Pieces(s[1..], 0);
      assert Pieces(s, depth) == [[]] + qs;
    } else {
      var d := depth + Delta(s[0]);
      PiecesNested(s[1..], d);
      var qs := Pieces(s[1..], d);
      var first := [s[0]] + qs[0];
      assert Pieces(s, depth) == [first] + qs[1..];
      forall j | 0 <= j < |first| && first[j] == '∧'
        ensures depth + Balance(first[..j]) != 0
      {
        if j > 0 {
          assert first[..j] == [s[0]] + qs[0][..j - 1];
          BalanceConcat([s[0]], qs[0][..j - 1]);
          BalanceChar(s[0]);
          assert qs[0][j - 1] == '∧';
        }
      }
    }
  }

  /** A condition that `quebrar_por_conjuncao` leaves whole. */
  predicate Conjunct(c: string)
  {
    c != [] && Stripped(c) && Balanced(c) && TopFree(c, 0)
  }

  /** No `∧` in `c` is met at count zero when counting starts at `depth`. */
  predicate TopFree(c: string, depth: int)
    decreases |c|
  {
    c == [] || (!(c[0] == '∧' && depth == 0) && TopFree(c[1..], depth + Delta(c[0])))
  }

  /** Two texts without a conjunction at count zero, read one after the other. */
  lemma {:induction false} TopFreeConcat(a: string, b: string, depth: int)
    requires TopFree(a, depth) && TopFree(b, depth + Balance(a))
    ensures TopFree(a + b, depth)
    decreases |a|
  {
    if a == [] {
      assert a + b == b;
    } else {
      var x, a' := a[0], a[1..];
      assert Balance(a) == Delta(x) + Balance(a') by {
        assert a == [x] + a';
        BalanceConcat([x], a');
        BalanceChar(x);
      }
      TopFreeConcat(a', b, depth + Delta(x));
      assert (a + b)[0] == x && (a + b)[1..] == a' + b;
    }
  }

  /** Whitespace holds no conjunction, whatever the count. */
  lemma {:induction false} SpaceTopFree(s: string, depth: int)
    requires AllSpace(s)
    ensures TopFree(s, depth)
    decreases |s|
  {
    if s != [] {
      assert IsSpace(s[0]);
      SpaceTopFree(s[1..], depth + Delta(s[0]));
    }
  }

  /** While the count stays positive, no conjunction is met at count zero. */
  lemma {:induction false} AboveTopFree(b: string, depth: int)
    requires depth >= 1 && StaysAbove(b, depth - 1)
    ensures TopFree(b, depth)
    decreases |b|
  {
    if b != [] {
      StaysAboveTail(b, depth - 1);
      AboveTopFree(b[1..], depth + Delta(b[0]));
    }
  }

  /** Reading a text without top-level conjunctions puts all of it into the current piece. */
  lemma {:induction false} PiecesPrefix(c: string, rest: string, depth: int)
    requires TopFree(c, depth)
    ensures var ps := Pieces(rest, depth + Balance(c));
      Pieces(c + rest, depth) == [c + ps[0]] + ps[1..]
    decreases |c|
  {
    if c == [] {
      var ps := Pieces(rest, depth);
      assert c + rest == rest && c + ps[0] == ps[0] && [ps[0]] + ps[1..] == ps;
    } else {
      var x, c' := c[0], c[1..];
      assert depth + Balance(c) == depth + Delta(x) + Balance(c') by {
        assert c == [x] + c';
        BalanceConcat([x], c');
        BalanceChar(x);
      }
      PiecesPrefix(c', rest, depth + Delta(x));
      PrefixGrow(c, rest, depth);
    }
  }

  /** One induction step of `PiecesPrefix`, on its own. */
  lemma PrefixGrow(c: string, rest: string, depth: int)
    requires c != [] && !(c[0] == '∧' && depth == 0)
    requires var ps := Pieces(rest, depth + Delta(c[0]) + Balance(c[1..]));
      Pieces(c[1..] + rest, depth + Delta(c[0])) == [c[1..] + ps[0]] + ps[1..]
    ensures var ps := Pieces(rest, depth + Delta(c[0]) + Balance(c[1..]));
      Pieces(c + rest, depth) == [c + ps[0]] + ps[1..]
  {
    var x, c' := c[0], c[1..];
    assert c + rest == [x] + (c' + rest) by {
      assert c == [x] + c';
    }
    PiecesCons(x, c' + rest, depth);
    var ps := Pieces(rest, depth + Delta(x) + Balance(c'));
    assert [x] + (c' + ps[0]) == c + ps[0] by {
      assert c == [x] + c';
    }
  }

  /** Spaces around a conjunct add no conjunction at count zero and leave the count at zero. */
  lemma PaddedTopFree(lead: string, c: string, trail: string)
    requires AllSpace(lead) && AllSpace(trail) && Conjunct(c)
    ensures TopFree(lead + c + trail, 0) && Balance(lead + c + trail) == 0
  {
    SpaceBalance(lead);
    SpaceBalance(trail);
    BalanceConcat(lead, c);
    BalanceConcat(lead + c, trail);
    SpaceTopFree(lead, 0);
    TopFreeConcat(lead, c, 0);
    SpaceTopFree(trail, Balance(lead + c));
    TopFreeConcat(lead + c, trail, 0);
  }

  lemma SpaceBalance(s: string)
    requires AllSpace(s)
    ensures Balance(s) == 0 && '∧' !in s
  {
    BalancedPlain(s);
  }

  /** Splitting conjuncts joined by ` ∧ ` gives them back: `quebrar_por_conjuncao` undoes the
      join that `remover_joins` writes. */
  lemma {:induction false} ConjunctsOfJoin(cs: seq<string>, lead: string)
    requires |cs| >= 1 && AllSpace(lead)
    requires forall k :: 0 <= k < |cs| ==> Conjunct(cs[k])
    ensures Cleaned(Pieces(lead + JoinWith(cs, " ∧ "), 0)) == cs
    decreases |cs|
  {
    if |cs| == 1 {
      assert lead + JoinWith(cs, " ∧ ") == lead + cs[0];
      LastConjunct(lead, cs[0]);
    } else {
      var tail := " " + JoinWith(cs[1..], " ∧ ");
      assert lead + JoinWith(cs, " ∧ ") == (lead + cs[0] + " ") + ("∧" + tail);
      NextConjunct(lead, cs[0], tail);
      ConjunctsOfJoin(cs[1..], " ");
      assert cs == [cs[0]] + cs[1..];
    }
  }

  lemma LastConjunct(lead: string, c: string)
    requires AllSpace(lead) && Conjunct(c)
    ensures Cleaned(Pieces(lead + c, 0)) == [c]
  {
    var x := lead + c;
    assert x + [] == x;
    PaddedTopFree(lead, c, []);
    assert Pieces(x, 0) == [x] by {
      PiecesPrefix(x, [], 0);
      assert Pieces([], Balance(x)) == [[]];
    }
    assert Strip(x) == c by {
      StripPadded(lead, c, []);
    }
  }

  lemma NextConjunct(lead: string, c: string, tail: string)
    requires AllSpace(lead) && Conjunct(c)
    ensures Cleaned(Pieces((lead + c + " ") + ("∧" + tail), 0)) == [c] + Cleaned(Pieces(tail, 0))
  {
    var first, qs := lead + c + " ", Pieces(tail, 0);
    NextPieces(lead, c, tail);
    CleanedCons(first, qs);
    StripPadded(lead, c, " ");
  }

  /** The conjunct with its padding is the first piece; the pieces of the tail follow. */
  lemma NextPieces(lead: string, c: string, tail: string)
    requires AllSpace(lead) && Conjunct(c)
    ensures Pieces((lead + c + " ") + ("∧" + tail), 0) == [lead + c + " "] + Pieces(tail, 0)
  {
    var first, qs := lead + c + " ", Pieces(tail, 0);
    assert Pieces("∧" + tail, 0) == [[]] + qs by {
      assert "∧" + tail == ['∧'] + tail;
      PiecesCons('∧', tail, 0);
    }
    PaddedTopFree(lead, c, " ");
    PiecesPrefix(first, "∧" + tail, 0);
    assert ([[]] + qs)[0] == [] && ([[]] + qs)[1..] == qs;
    assert first + [] == first;
  }

  /** The round trip in the form the rewrites use. */
  lemma ConjunctsJoined(cs: seq<string>)
    requires |cs| >= 1 && forall k :: 0 <= k < |cs| ==> Conjunct(cs[k])
    ensures Conjuncts(JoinWith(cs, " ∧ ")) == cs
  {
    ConjunctsOfJoin(cs, []);
    assert [] + JoinWith(cs, " ∧ ") == JoinWith(cs, " ∧ ");
  }

  /** A parenthesised balanced condition is one conjunct. */
  lemma ParenthesisedConjunct(b: string)
    requires Balanced(b)
    ensures Conjunct("(" + b + ")")
  {
    BalancedWrap(b);
    assert TopFree("(", 0) && TopFree(")", Balance("(" + b));
    assert StaysAbove(b, 0);
    AboveTopFree(b, 1);
    BalanceChar('(');
    TopFreeConcat("(", b, 0);
    TopFreeConcat("(" + b, ")", 0);
  }

  // ---------------------------------------------------------------------------------------------
  // `extrair_tabelas_dependentes` and `extrair_tabelas_da_expressao`

  /** A non-empty run of `[A-Za-z0-9_]`. */
  predicate IsName(a: string)
  {
    a != [] && forall k :: 0 <= k < |a| ==> IsIdentChar(a[k])
  }

  /** The end of the run of `[A-Za-z0-9_]` that starts at `p` (`p` itself when there is none). A
      greedy `[A-Za-z0-9_]+` can only be followed by something else at this end. */
  function RunEnd(s: string, p: nat): (q: nat)
    requires p <= |s|
    ensures p <= q <= |s|
    ensures forall k :: p <= k < q ==> IsIdentChar(s[k])
    ensures q == |s| || !IsIdentChar(s[q])
    decreases |s| - p
  {
    if p < |s| && IsIdentChar(s[p]) then RunEnd(s, p + 1) else p
  }

  /** `([A-Za-z0-9_]+)\.[A-Za-z0-9_]+` matches at `p`: a name, a dot, a name. */
  predicate QualifiedAt(s: string, p: nat)
    requires p <= |s|
  {
    var q := RunEnd(s, p);
    p < q && q + 1 < |s| && s[q] == '.' && IsIdentChar(s[q + 1])
  }

  /** The names `re.findall` collects from position `p` on: after a match it goes on past the
      field name, after a miss one character further. */
  function QualifiersFrom(s: string, p: nat): set<string>
    requires p <= |s|
    decreases |s| - p
  {
    if p == |s| then {}
    else if QualifiedAt(s, p) then
      {s[p..RunEnd(s, p)]} + QualifiersFrom(s, RunEnd(s, RunEnd(s, p) + 1))
    else QualifiersFrom(s, p + 1)
  }

  /** `extrair_tabelas_dependentes(condicao)`: the aliases of the qualified names in a condition. */
  function DependentTables(condition: string): (r: set<string>)
    ensures forall a :: a in r ==> IsName(a)
  {
    QualifiersSound(condition, 0);
    QualifiersFrom(condition, 0)
  }

  /** Every alias found is a name written right before `.` and a field name in the condition. */
  lemma {:induction false} QualifiersSound(s: string, p: nat)
    requires p <= |s|
    ensures forall a :: a in QualifiersFrom(s, p) ==>
      IsName(a) && exists k :: p <= k < |s| && QualifiedAt(s, k) && a == s[k..RunEnd(s, k)]
    decreases |s| - p
  {
    if p < |s| {
      if QualifiedAt(s, p) {
        QualifiersSound(s, RunEnd(s, RunEnd(s, p) + 1));
        var a := s[p..RunEnd(s, p)];
        assert forall k :: 0 <= k < |a| ==> a[k] == s[p + k];
      } else {
        QualifiersSound(s, p + 1);
      }
    }
  }

  /** A condition that opens with `Alias.field` depends on `Alias`. */
  lemma LeadingQualifier(a: string, f: string, rest: string)
    requires IsName(a) && IsName(f) && (rest == [] || !IsIdentChar(rest[0]))
    ensures a in DependentTables(a + "." + f + rest)
  {
    var s := a + "." + f + rest;
    assert RunEnd(s, 0) == |a| by {
      RunOver(s, 0, |a|);
    }
    assert s[..|a|] == a;
  }

  /** Over a run of name characters ending at `q`, the run ends at `q`. */
  lemma {:induction false} RunOver(s: string, p: nat, q: nat)
    requires p <= q <= |s|
    requires forall k :: p <= k < q ==> IsIdentChar(s[k])
    requires q == |s| || !IsIdentChar(s[q])
    ensures RunEnd(s, p) == q
    decreases q - p
  {
    if p < q {
      RunOver(s, p + 1, q);
    }
  }

  /** `([A-Za-z0-9_]+)\[([A-Za-z0-9_]+)\]` matches at `p`: a table name and an alias in brackets. */
  predicate TableAt(s: string, p: nat)
    requires p <= |s|
  {
    var q := RunEnd(s, p);
    p < q < |s| && s[q] == '[' && q + 1 < RunEnd(s, q + 1) < |s| && s[RunEnd(s, q + 1)] == ']'
  }

  /** The alias of the match at `p`. */
  function AliasAt(s: string, p: nat): string
    requires p <= |s| && TableAt(s, p)
  {
    s[RunEnd(s, p) + 1..RunEnd(s, RunEnd(s, p) + 1)]
  }

  /** The aliases `finditer` collects from position `p` on. */
  function AliasesFrom(s: string, p: nat): set<string>
    requires p <= |s|
    decreases |s| - p
  {
    if p == |s| then {}
    else if TableAt(s, p) then {AliasAt(s, p)} + AliasesFrom(s, RunEnd(s, RunEnd(s, p) + 1) + 1)
    else AliasesFrom(s, p + 1)
  }

  /** `extrair_tabelas_da_expressao(expr)`: the aliases of the `Table[Alias]` leaves. */
  function ExpressionTables(expr: string): (r: set<string>)
    ensures forall a :: a in r ==> IsName(a)
  {
    AliasesSound(expr, 0);
    AliasesFrom(expr, 0)
  }

  /** Every alias found is a name in brackets right after a table name. */
  lemma {:induction false} AliasesSound(s: string, p: nat)
    requires p <= |s|
    ensures forall a :: a in AliasesFrom(s, p) ==>
      IsName(a) && exists k :: p <= k < |s| && TableAt(s, k) && a == AliasAt(s, k)
    decreases |s| - p
  {
    if p < |s| {
      if TableAt(s, p) {
        AliasesSound(s, RunEnd(s, RunEnd(s, p) + 1) + 1);
        var q := RunEnd(s, p);
        var a := AliasAt(s, p);
        assert forall k :: 0 <= k < |a| ==> a[k] == s[q + 1 + k];
      } else {
        AliasesSound(s, p + 1);
      }
    }
  }

  /** A lone `Table[Alias]` has exactly its alias. */
  lemma LoneTable(t: string, a: string)
    requires IsName(t) && IsName(a)
    ensures ExpressionTables(t + "[" + a + "]") == {a}
  {
    var s := t + "[" + a + "]";
    var q := |t|;
    RunOver(s, 0, q);
    RunOver(s, q + 1, q + 1 + |a|);
    assert s[q + 1..q + 1 + |a|] == a;
    assert AliasesFrom(s, |s|) == {};
  }

  // ---------------------------------------------------------------------------------------------
  // The search `𝛔\[(.*?)\]\(`

  /** Where the lazy `(.*?)\]\(` that starts at `k` stops: the first `](` at or after `k`, unless a
      line break comes first, since `.` does not match one. */
  function LazyClose(s: string, k: nat): (r: Option<nat>)
    requires k <= |s|
    ensures r.Some? ==> k <= r.value && r.value + 1 < |s| && s[r.value] == ']' && s[r.value + 1] == '('
    decreases |s| - k
  {
    if k + 1 >= |s| then None
    else if s[k] == ']' && s[k + 1] == '(' then Some(k)
    else if s[k] == '\n' then None
    else LazyClose(s, k + 1)
  }

  /** `𝛔\[(.*?)\]\(` matches at `i`. */
  predicate SelectionAt(s: string, i: nat)
  {
    i + 2 <= |s| && s[i] == '𝛔' && s[i + 1] == '[' && LazyClose(s, i + 2).Some?
  }

  /** `re.search` from `i` on: the first position where the selection pattern matches. */
  function FirstSelection(s: string, i: nat): (r: Option<nat>)
    requires i <= |s|
    ensures r.Some? ==> i <= r.value < |s| && SelectionAt(s, r.value)
    decreases |s| - i
  {
    if i == |s| then None
    else if SelectionAt(s, i) then Some(i)
    else FirstSelection(s, i + 1)
  }

  /** The search finds the leftmost match. */
  lemma {:induction false} FirstSelectionLeftmost(s: string, i: nat)
    requires i <= |s|
    ensures forall k :: i <= k < |s| && (FirstSelection(s, i).None? || k < FirstSelection(s, i).value) ==>
      !SelectionAt(s, k)
    decreases |s| - i
  {
    if i < |s| && !SelectionAt(s, i) {
      FirstSelectionLeftmost(s, i + 1);
    }
  }

  /** Text in which `](` never occurs and no line break stands. */
  predicate NoLazyStop(c: string)
  {
    '\n' !in c && forall k :: 0 <= k < |c| - 1 ==> !(c[k] == ']' && c[k + 1] == '(')
  }

  /** The lazy condition stops at the first `](` after a condition that holds none. */
  lemma {:induction false} LazyCloseAfter(p: string, c: string, t: string)
    requires NoLazyStop(c)
    ensures LazyClose(p + c + "](" + t, |p|) == Some(|p| + |c|)
    decreases |c|
  {
    var s := p + c + "](" + t;
    if c != [] {
      assert s[|p|] == c[0] && s[|p| + 1] == (c + "](")[1];
      assert s == (p + [c[0]]) + c[1..] + "](" + t;
      assert c[0] != '\n';
      LazyCloseAfter(p + [c[0]], c[1..], t);
    }
  }
}

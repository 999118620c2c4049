/**
 * `desaninhar_selects`: every selection whose condition is a conjunction becomes a chain of
 * selections, one per conjunct, the first conjunct outermost.
 */
module AlgebraUnnest {
  import opened Text
  import opened Parens
  import opened AlgebraFormat
  import opened AlgebraClauses
  import TreeBuilder

  /** The selections `𝛔[c](…)` for the conditions in `conds` around `e`, the first outermost. */
  function Nest(conds: seq<string>, e: string): string
  {
    if conds == [] then e else "𝛔[" + conds[0] + "](" + Nest(conds[1..], e) + ")"
  }

  /** The text around the first selection: what comes before it, its condition, its operand
      without the parentheses, and what follows the operand. */
  datatype Site = Site(before: string, condition: string, operand: string, after: string)

  /** Where `quebrar_condicoes` cuts `expr`, if it has a selection. */
  function SiteOf(expr: string): (r: Option<Site>)
    ensures r.Some? ==> |r.value.operand| < |expr| && |r.value.after| < |expr|
  {
    match FirstSelection(expr, 0)
    case None => None
    case Some(i) => Some(SiteFrom(expr, i))
  }

  /** The cut around the selection that matches at `i`. */
  function SiteFrom(expr: string, i: nat): (r: Site)
    requires i < |expr| && SelectionAt(expr, i)
    ensures |r.operand| < |expr| && |r.after| < |expr|
  {
    var j := LazyClose(expr, i + 2).value;
    var end := GroupEnd(expr, j + 1);
    Site(expr[..i], expr[i + 2..j], Inner(expr[j + 1..end]), expr[end..])
  }

  /** What `quebrar_condicoes(expr)` returns: the text up to the first selection, that selection
      unnested with its operand unnested in turn, then the rest of the text unnested. */
  function Unnest(expr: string): string
    decreases |expr|
  {
    match SiteOf(expr)
    case None => expr
    case Some(site) =>
      site.before + Nest(Conjuncts(site.condition), Unnest(site.operand)) + Unnest(site.after)
  }

  lemma SiteAt(expr: string, i: nat, j: nat, end: nat)
    requires FirstSelection(expr, 0) == Some(i)
    requires LazyClose(expr, i + 2) == Some(j) && j + 1 < |expr| && end == GroupEnd(expr, j + 1)
    ensures SiteOf(expr) == Some(Site(expr[..i], expr[i + 2..j], Inner(expr[j + 1..end]), expr[end..]))
  {
    assert SiteOf(expr) == Some(SiteFrom(expr, i));
  }

  lemma UnnestSite(expr: string, site: Site)
    requires SiteOf(expr) == Some(site)
    ensures Unnest(expr) == site.before + Nest(Conjuncts(site.condition), Unnest(site.operand)) + Unnest(site.after)
  {
  }

  /** `quebrar_condicoes(expr)`, the inner function of `desaninhar_selects`. */
  method UnnestFrom(expr: string) returns (r: string)
    ensures r == Unnest(expr)
    decreases |expr|
  {
    var found := FirstSelection(expr, 0);
    if found.None? {
      return expr;
    }
    var i := found.value;
    var j := LazyClose(expr, i + 2).value;
    var condition := expr[i + 2..j];
    var whole, end := Subexpression(expr, j + 1);
    var processed := UnnestFrom(Inner(whole));
    var conds := SplitConjunction(condition);
    var nested := NestAll(conds, processed);
    var rest := UnnestFrom(expr[end..]);
    r := expr[..i] + nested + rest;
    UnnestAt(expr, i, j, end);
  }

  /** The loop of `quebrar_condicoes` that wraps the operand in one selection per condition, the
      last condition innermost. */
  method NestAll(conds: seq<string>, e: string) returns (nested: string)
    ensures nested == Nest(conds, e)
  {
    nested := e;
    var k := |conds|;
    while k > 0
      invariant 0 <= k <= |conds|
      invariant nested == Nest(conds[k..], e)
    {
      k := k - 1;
      assert conds[k..][1..] == conds[k + 1..];
      nested := "𝛔[" + conds[k] + "](" + nested + ")";
    }
    assert conds[0..] == conds;
  }

  /** The text around the first selection, its conditions and its operand make up the result. */
  lemma UnnestAt(expr: string, i: nat, j: nat, end: nat)
    requires FirstSelection(expr, 0) == Some(i)
    requires LazyClose(expr, i + 2) == Some(j) && j + 1 < |expr| && end == GroupEnd(expr, j + 1)
    ensures Unnest(expr) == expr[..i] + Nest(Conjuncts(expr[i + 2..j]), Unnest(Inner(expr[j + 1..end]))) + Unnest(expr[end..])
  {
    SiteAt(expr, i, j, end);
    UnnestSite(expr, Site(expr[..i], expr[i + 2..j], Inner(expr[j + 1..end]), expr[end..]));
  }

  /** `desaninhar_selects(algebra)` */
  method UnnestSelects(algebra: string) returns (r: string)
    ensures r == Unnest(Format(algebra))
    ensures Balanced(Format(algebra)) && BalancedConditions(Format(algebra)) ==> Balanced(r)
  {
    r := UnnestFrom(Format(algebra));
    if Balanced(Format(algebra)) && BalancedConditions(Format(algebra)) {
      UnnestBalanced(Format(algebra));
    }
  }

  /** A selection over a parenthesised balanced operand is rewritten into one selection per
      conjunct of its condition, around the rewritten operand. */
  lemma UnnestSelection(c: string, b: string)
    requires NoLazyStop(c) && Balanced(b)
    ensures Unnest("𝛔[" + c + "](" + b + ")") == Nest(Conjuncts(c), Unnest(b))
  {
    var s := "𝛔[" + c + "](" + b + ")";
    SelectionSite(c, b);
    UnnestSite(s, Site([], c, b, []));
    assert SiteOf([]) == None;
    assert [] + Nest(Conjuncts(c), Unnest(b)) + [] == Nest(Conjuncts(c), Unnest(b));
  }

  /** A selection over a parenthesised balanced operand is cut into its condition and operand. */
  lemma SelectionSite(c: string, b: string)
    requires NoLazyStop(c) && Balanced(b)
    ensures SiteOf("𝛔[" + c + "](" + b + ")") == Some(Site([], c, b, []))
  {
    var s := "𝛔[" + c + "](" + b + ")";
    var p := "𝛔[" + c + "]";
    var j := 2 + |c|;
    assert LazyClose(s, 2) == Some(j) by {
      assert s == "𝛔[" + c + "](" + (b + ")");
      LazyCloseAfter("𝛔[", c, b + ")");
    }
    assert FirstSelection(s, 0) == Some(0) by {
      assert SelectionAt(s, 0);
    }
    assert GroupEnd(s, j + 1) == |s| && Inner(s[j + 1..|s|]) == b by {
      assert s == p + "(" + b + ")" + [];
      GroupOfBalanced(p, b, []);
    }
    assert s[2..j] == c;
    SiteOfParts(s, j, c, b);
  }

  lemma SiteOfParts(s: string, j: nat, c: string, b: string)
    requires FirstSelection(s, 0) == Some(0) && LazyClose(s, 2) == Some(j) && j + 1 < |s|
    requires GroupEnd(s, j + 1) == |s| && Inner(s[j + 1..|s|]) == b && s[2..j] == c
    ensures SiteOf(s) == Some(Site([], c, b, []))
  {
    SiteAt(s, 0, j, |s|);
    assert s[..0] == [] && s[|s|..] == [];
  }

  /** Written as the join of its conjuncts, a selection becomes the chain of those conjuncts. */
  lemma UnnestConjunction(cs: seq<string>, b: string)
    requires |cs| >= 1 && Balanced(b)
    requires forall k :: 0 <= k < |cs| ==> Conjunct(cs[k]) && NoLazyStop(cs[k])
    ensures Unnest("𝛔[" + JoinWith(cs, " ∧ ") + "](" + b + ")") == Nest(cs, Unnest(b))
  {
    JoinNoLazyStop(cs);
    UnnestSelection(JoinWith(cs, " ∧ "), b);
    ConjunctsJoined(cs);
  }

  lemma {:induction false} JoinNoLazyStop(cs: seq<string>)
    requires forall k :: 0 <= k < |cs| ==> NoLazyStop(cs[k])
    ensures NoLazyStop(JoinWith(cs, " ∧ "))
    decreases |cs|
  {
    if |cs| >= 2 {
      JoinNoLazyStop(cs[1..]);
      var a, t := cs[0], JoinWith(cs[1..], " ∧ ");
      var s := a + " ∧ " + t;
      assert s == JoinWith(cs, " ∧ ");
      forall k | 0 <= k < |s| - 1
        ensures !(s[k] == ']' && s[k + 1] == '(')
      {
        if k < |a| - 1 {
          assert s[k] == a[k] && s[k + 1] == a[k + 1];
        } else if k >= |a| + 3 {
          assert s[k] == t[k - |a| - 3] && s[k + 1] == t[k - |a| - 2];
        }
      }
      assert '\n' !in s by {
        assert forall k :: 0 <= k < |s| ==> s[k] in a || s[k] in " ∧ " || s[k] in t;
      }
    }
  }

  // ---------------------------------------------------------------------------------------------
  // Parentheses stay balanced

  /** The conditions of every selection that `quebrar_condicoes` cuts, at any depth of its
      recursion, are balanced. */
  predicate BalancedConditions(s: string)
    decreases |s|
  {
    match SiteOf(s)
    case None => true
    case Some(site) => Balanced(site.condition) && BalancedConditions(site.operand) && BalancedConditions(site.after)
  }

  /** A `(` is closed when the text from it on does not raise the count. */
  lemma {:induction false} GroupCloses(s: string, g: nat)
    requires g < |s| && s[g] == '(' && Balance(s[g..]) <= 0
    ensures TreeBuilder.CloseOf(s, g) < |s|
  {
    FirstZeroPositive(s, g + 1, 1);
    assert s[g..] == [s[g]] + s[g + 1..|s|];
    BalanceConcat([s[g]], s[g + 1..|s|]);
    BalanceChar(s[g]);
  }

  /** `strip` keeps balanced text balanced: what it removes is whitespace. */
  lemma {:induction false} StripBalanced(s: string)
    requires Balanced(s)
    ensures Balanced(Strip(s))
  {
    var l := TrimLeft(s);
    TrimLeftRemovesSpace(s);
    TrimRightRemovesSpace(l);
    var n := |s| - |l|;
    var m := |TrimRight(l)|;
    SpaceBalance(s[..n]);
    SpaceBalance(l[m..]);
    assert s == s[..n] + l && l == TrimRight(l) + l[m..];
    StaysAboveCut(s[..n], l, 0);
    BalanceConcat(s[..n], l);
    StaysAboveCut(TrimRight(l), l[m..], 0);
    BalanceConcat(TrimRight(l), l[m..]);
  }

  /** Whitespace does not move the count. */
  lemma {:induction false} SpaceBalance(w: string)
    requires AllSpace(w)
    ensures Balance(w) == 0
    decreases |w|
  {
    if w != [] {
      assert w[|w| - 1] in w;
      assert AllSpace(w[..|w| - 1]) by {
        assert forall k :: 0 <= k < |w| - 1 ==> w[..|w| - 1][k] == w[k];
      }
      SpaceBalance(w[..|w| - 1]);
    }
  }

  /** Read from a count `d` that it settles, `s` is cut at conjunctions into a first piece that
      settles `d` and later pieces that are balanced. */
  lemma {:induction false} PiecesSettle(s: string, d: int)
    requires Settles(s, d)
    ensures Settles(Pieces(s, d)[0], d)
    ensures forall k :: 1 <= k < |Pieces(s, d)| ==> Balanced(Pieces(s, d)[k])
    decreases |s|
  {
    if s != [] {
      StaysAboveTail(s, d);
      var d' := d + Delta(s[0]);
      if s[0] == '∧' && d == 0 {
        PiecesSettle(s[1..], 0);
        assert Pieces(s, d) == [[]] + Pieces(s[1..], 0);
      } else {
        PiecesSettle(s[1..], d');
        var ps := Pieces(s[1..], d');
        assert Pieces(s, d) == [[s[0]] + ps[0]] + ps[1..];
        assert StaysAbove([s[0]], d) by {
          assert s[..0] == [] && [s[0]][..0] == [] && [s[0]][..1] == [s[0]];
          BalanceChar(s[0]);
        }
        BalanceChar(s[0]);
        StaysAboveJoin([s[0]], ps[0], d);
        BalanceConcat([s[0]], ps[0]);
      }
    }
  }

  /** The cleaned pieces of balanced pieces are balanced. */
  lemma {:induction false} CleanedBalanced(ps: seq<string>)
    requires |ps| >= 1 && forall k :: 0 <= k < |ps| ==> Balanced(ps[k])
    ensures forall k :: 0 <= k < |Cleaned(ps)| ==> Balanced(Cleaned(ps)[k])
    decreases |ps|
  {
    StripBalanced(ps[0]);
    if |ps| > 1 {
      CleanedBalanced(ps[1..]);
    }
  }

  /** The conjuncts of a balanced condition are balanced. */
  lemma {:induction false} ConjunctsBalanced(c: string)
    requires Balanced(c)
    ensures forall k :: 0 <= k < |Conjuncts(c)| ==> Balanced(Conjuncts(c)[k])
  {
    PiecesSettle(c, 0);
    CleanedBalanced(Pieces(c, 0));
  }

  /** Selections with balanced conditions around balanced text make balanced text. */
  lemma {:induction false} NestBalanced(cs: seq<string>, e: string)
    requires Balanced(e) && forall k :: 0 <= k < |cs| ==> Balanced(cs[k])
    ensures Balanced(Nest(cs, e))
    decreases |cs|
  {
    if cs != [] {
      NestBalanced(cs[1..], e);
      SelectionHeadBalanced(cs[0]);
      BalancedWrap(Nest(cs[1..], e));
      BalancedConcat("𝛔[" + cs[0] + "]", "(" + Nest(cs[1..], e) + ")");
      NestPieces(cs[0], Nest(cs[1..], e));
    }
  }

  lemma {:induction false} SelectionHeadBalanced(c: string)
    requires Balanced(c)
    ensures Balanced("𝛔[" + c + "]")
  {
    BalancedPlain("𝛔[");
    BalancedPlain("]");
    BalancedConcat("𝛔[", c);
    BalancedConcat("𝛔[" + c, "]");
  }

  lemma NestPieces(c: string, n: string)
    ensures "𝛔[" + c + "](" + n + ")" == "𝛔[" + c + "]" + ("(" + n + ")")
  {
    var h := "𝛔[" + c;
    assert "](" == "]" + "(";
    assert h + "](" == h + "]" + "(";
    assert h + "](" + n + ")" == (h + "]") + ("(" + n + ")");
  }

  /** Around the first selection of text that settles `off`, with a balanced condition: what comes
      before stays at or above zero, the operand is balanced, and what follows settles the count
      the selection started at. */
  lemma {:induction false} SiteSettles(s: string, off: int, site: Site)
    requires Settles(s, off) && SiteOf(s) == Some(site) && Balanced(site.condition)
    ensures StaysAbove(site.before, off) && off + Balance(site.before) >= 0
    ensures Balanced(site.operand) && Settles(site.after, off + Balance(site.before))
  {
    var i := FirstSelection(s, 0).value;
    var j := LazyClose(s, i + 2).value;
    assert site == Site(s[..i], s[i + 2..j], Inner(s[j + 1..GroupEnd(s, j + 1)]), s[GroupEnd(s, j + 1)..]);
    CutSettles(s, off, i, j);
  }

  lemma {:induction false} CutSettles(s: string, off: int, i: nat, j: nat)
    requires i < |s| && SelectionAt(s, i) && LazyClose(s, i + 2) == Some(j)
    requires Balanced(s[i + 2..j]) && Settles(s, off)
    ensures var end := GroupEnd(s, j + 1); var d := off + Balance(s[..i]);
      StaysAbove(s[..i], off) && d >= 0 && Balanced(Inner(s[j + 1..end])) && Settles(s[end..], d)
  {
    assert s == s[..i] + s[i..];
    SettlesCut(s[..i], s[i..], off);
    var d := off + Balance(s[..i]);
    HeadSettles(s, i, j, d);
    GroupSettles(s, j + 1, d);
  }

  /** The operand group of a selection, in text that settles `d >= 0` from its `(` on: its inside
      is balanced and what follows it settles `d` too. */
  lemma {:induction false} GroupSettles(s: string, g: nat, d: int)
    requires g < |s| && s[g] == '(' && d >= 0 && Settles(s[g..], d)
    ensures Balanced(Inner(s[g..GroupEnd(s, g)])) && Settles(s[GroupEnd(s, g)..], d)
  {
    GroupCloses(s, g);
    GroupShape(s, g);
    OperandSettles(s, g, GroupEnd(s, g), d);
  }

  /** A selection with a balanced condition leaves the count where it found it. */
  lemma {:induction false} HeadSettles(s: string, i: nat, j: nat, d: int)
    requires i < |s| && SelectionAt(s, i) && LazyClose(s, i + 2) == Some(j)
    requires Balanced(s[i + 2..j]) && Settles(s[i..], d)
    ensures Settles(s[j + 1..], d)
  {
    SelectionHead(s, i, j);
    SelectionHeadBalanced(s[i + 2..j]);
    assert s[i..] == s[i..j + 1] + s[j + 1..];
    SettlesCut(s[i..j + 1], s[j + 1..], d);
  }

  /** The selection at `i` up to its `]`. */
  lemma SelectionHead(s: string, i: nat, j: nat)
    requires i < |s| && SelectionAt(s, i) && LazyClose(s, i + 2) == Some(j)
    ensures s[i..j + 1] == "𝛔[" + s[i + 2..j] + "]"
  {
    assert s[i..j + 1] == [s[i], s[i + 1]] + s[i + 2..j] + [s[j]];
  }

  /** A closed group keeps the count where it was. */
  lemma {:induction false} OperandSettles(s: string, g: nat, end: nat, d: int)
    requires g < |s| && s[g] == '(' && TreeBuilder.CloseOf(s, g) < |s| && end == GroupEnd(s, g)
    requires s[g..end] == "(" + TreeBuilder.Between(s, g) + ")" && Balanced(TreeBuilder.Between(s, g))
    requires Settles(s[g..], d)
    ensures Balanced(Inner(s[g..end])) && Settles(s[end..], d)
  {
    var b := TreeBuilder.Between(s, g);
    assert Inner(s[g..end]) == b;
    BalancedWrap(b);
    assert s[g..] == s[g..end] + s[end..];
    StaysAboveCut(s[g..end], s[end..], d);
    BalanceConcat(s[g..end], s[end..]);
  }

  /**
   * `quebrar_condicoes` keeps the parentheses of text that settles a count `off` settling it, as
   * long as the conditions it cuts are balanced: a selection is replaced by selections whose
   * conditions are its balanced conjuncts, around its operand, which is balanced.
   */
  lemma {:induction false} UnnestSettles(s: string, off: int)
    requires Settles(s, off) && BalancedConditions(s)
    ensures Settles(Unnest(s), off)
    decreases |s|
  {
    match SiteOf(s)
    case None =>
    case Some(site) =>
      SiteSettles(s, off, site);
      var d0 := off + Balance(site.before);
      UnnestSettles(site.operand, 0);
      UnnestSettles(site.after, d0);
      ConjunctsBalanced(site.condition);
      NestBalanced(Conjuncts(site.condition), Unnest(site.operand));
      UnnestSite(s, site);
      SettlesAround(site.before, Nest(Conjuncts(site.condition), Unnest(site.operand)), Unnest(site.after), off);
  }

  /** `desaninhar_selects` keeps balanced text balanced when the conditions it cuts are balanced,
      as its docstring promises. */
  lemma {:induction false} UnnestBalanced(s: string)
    requires Balanced(s) && BalancedConditions(s)
    ensures Balanced(Unnest(s))
  {
    UnnestSettles(s, 0);
  }
}

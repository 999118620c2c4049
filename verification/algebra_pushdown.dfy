/**
 * `empurrar_selects_para_baixo`: the selections at the top of the text are taken off and put
 * back as close as possible to the relations whose aliases their conditions name.
 */
module AlgebraPushdown {
  import opened Text
  import opened AlgebraFormat
  import opened AlgebraClauses
  import opened AlgebraJoins

  /** A selection taken off the top: its condition and the aliases the condition depends on. */
  datatype Select = Select(cond: string, tables: set<string>)

  // ---------------------------------------------------------------------------------------------
  // The patterns `^𝛔\[(.*?)\]\((.*)\)$`, `^𝝿\[(.*?)\]\((.*)\)$` and
  // `^([A-Za-z0-9_]+)\[([A-Za-z0-9_]+)\]$`

  /** `(.*)\)$` from `k`: the group runs to the final `)`, which may be followed by one line
      break, and holds no line break itself. */
  function TailGroup(s: string, k: nat): (r: Option<string>)
    requires k <= |s|
    ensures r.Some? ==> |r.value| < |s| - k
  {
    if k < |s| && s[|s| - 1] == ')' && '\n' !in s[k..|s| - 1] then Some(s[k..|s| - 1])
    else if k + 1 < |s| && s[|s| - 2] == ')' && s[|s| - 1] == '\n' && '\n' !in s[k..|s| - 2] then Some(s[k..|s| - 2])
    else None
  }

  /** The two groups of `^<mark>\[(.*?)\]\((.*)\)$`. */
  datatype Cut = Cut(head: string, body: string)

  /** `re.match(r'^<mark>\[(.*?)\]\((.*)\)$', s)`: the bracketed text up to the first `](`, and
      what lies between the `(` after it and the final `)`. */
  function Wrapped(s: string, mark: char): (r: Option<Cut>)
    ensures r.Some? ==> |r.value.body| < |s| - 2
  {
    if |s| >= 2 && s[0] == mark && s[1] == '[' then
      match LazyClose(s, 2)
      case None => None
      case Some(j) =>
        match TailGroup(s, j + 2)
        case None => None
        case Some(b) => Some(Cut(s[2..j], b))
    else None
  }

  /** `re.match(r'^([A-Za-z0-9_]+)\[([A-Za-z0-9_]+)\]$', s)`: the alias of a lone relation. */
  function TableLeaf(s: string): Option<string>
  {
    var p := RunEnd(s, 0);
    if 0 < p < |s| && s[p] == '[' then
      var q := RunEnd(s, p + 1);
      if p + 1 < q < |s| && s[q] == ']' && (q + 1 == |s| || (q + 2 == |s| && s[q + 1] == '\n')) then
        Some(s[p + 1..q])
      else None
    else None
  }

  // ---------------------------------------------------------------------------------------------
  // extrair_selects

  /** What `extrair_selects(expr)` returns: the text under the selections at its top, and those
      selections, the outermost first. */
  function Extract(expr: string): (string, seq<Select>)
    decreases |expr|
  {
    match Wrapped(expr, '𝛔')
    case None => (expr, [])
    case Some(cut) =>
      var inner := Extract(cut.body);
      (inner.0, [Select(cut.head, DependentTables(cut.head))] + inner.1)
  }

  /** `extrair_selects(expr)` */
  method ExtractSelects(expr: string) returns (rest: string, selects: seq<Select>)
    ensures (rest, selects) == Extract(expr)
  {
    rest := expr;
    selects := [];
    while Wrapped(rest, '𝛔').Some?
      invariant Extract(rest).0 == Extract(expr).0 && selects + Extract(rest).1 == Extract(expr).1
      decreases |rest|
    {
      var cut := Wrapped(rest, '𝛔').value;
      var deps := DependentTables(cut.head);
      assert Extract(rest).1 == [Select(cut.head, deps)] + Extract(cut.body).1;
      selects := selects + [Select(cut.head, deps)];
      rest := cut.body;
    }
    assert Extract(rest) == (rest, []);
    assert selects + [] == selects;
  }

  /** A selection over a parenthesised text without line breaks is taken off with its
      condition. */
  lemma ExtractSelection(c: string, b: string)
    requires NoLazyStop(c) && '\n' !in b
    ensures Extract("𝛔[" + c + "](" + b + ")") == (Extract(b).0, [Select(c, DependentTables(c))] + Extract(b).1)
  {
    var s := "𝛔[" + c + "](" + b + ")";
    assert Wrapped(s, '𝛔') == Some(Cut(c, b)) by {
      assert s == ['𝛔'] + "[" + c + "](" + b + ")";
      SelectionCut(c, b, '𝛔');
    }
  }

  lemma SelectionCut(c: string, b: string, mark: char)
    requires NoLazyStop(c) && '\n' !in b
    ensures Wrapped([mark] + "[" + c + "](" + b + ")", mark) == Some(Cut(c, b))
  {
    var s := [mark] + "[" + c + "](" + b + ")";
    var j := 2 + |c|;
    assert LazyClose(s, 2) == Some(j) by {
      assert s == ([mark] + "[") + c + "](" + (b + ")");
      LazyCloseAfter([mark] + "[", c, b + ")");
    }
    assert s[2..j] == c;
    assert s[j + 2..|s| - 1] == b;
    assert TailGroup(s, j + 2) == Some(b);
  }

  // ---------------------------------------------------------------------------------------------
  // aplicar_selects

  function Conds(ss: seq<Select>): (r: seq<string>)
    ensures |r| == |ss| && forall k :: 0 <= k < |ss| ==> r[k] == ss[k].cond
  {
    seq(|ss|, k requires 0 <= k < |ss| => ss[k].cond)
  }

  /** `e` wrapped in one selection per condition, the last condition outermost (the loops
      `for cond in …: result = f"𝛔[{cond}]({result})"`). */
  function Wrap(conds: seq<string>, e: string): string
  {
    if conds == [] then e else "𝛔[" + conds[|conds| - 1] + "](" + Wrap(conds[..|conds| - 1], e) + ")"
  }

  /** The selections that depend on the alias `a` alone, in their order. */
  function Matching(ss: seq<Select>, a: string): seq<Select>
  {
    if ss == [] then []
    else (if ss[0].tables == {a} then [ss[0]] else []) + Matching(ss[1..], a)
  }

  /** The other selections, in their order. */
  function Others(ss: seq<Select>, a: string): seq<Select>
  {
    if ss == [] then []
    else (if ss[0].tables == {a} then [] else [ss[0]]) + Others(ss[1..], a)
  }

  /** The operators `aplicar_selects` looks for. */
  datatype Operator = Join | Product

  /** The scan of `aplicar_selects` for the main operator of `c` from `i` on, `depth` parentheses
      deep: the first `⨝[`, or `X` between whitespace, outside all parentheses. */
  function MainOperator(c: string, i: nat, depth: int): (r: Option<(Operator, nat)>)
    ensures r.Some? ==> i <= r.value.1 < |c| - 1
    ensures r.Some? && r.value.0 == Join ==> c[r.value.1] == '⨝' && c[r.value.1 + 1] == '['
    decreases |c| - i
  {
    if i >= |c| then None
    else if c[i] == '(' then MainOperator(c, i + 1, depth + 1)
    else if c[i] == ')' then MainOperator(c, i + 1, depth - 1)
    else if depth == 0 && i + 1 < |c| && c[i] == '⨝' && c[i + 1] == '[' then Some((Join, i))
    else if depth == 0 && 0 < i < |c| - 1 && c[i] == 'X' && IsSpace(c[i - 1]) && IsSpace(c[i + 1]) then Some((Product, i))
    else MainOperator(c, i + 1, depth)
  }

  /** How `aplicar_selects` sorts the selections at a binary node, each kind in its order. */
  datatype Split = Split(left: seq<Select>, right: seq<Select>, both: seq<Select>, rest: seq<Select>)

  /** The selections within the aliases of the left operand, else within those of the right
      one, else within their union, else the rest. */
  function Partition(ss: seq<Select>, l: set<string>, r: set<string>): Split
  {
    if ss == [] then Split([], [], [], [])
    else
      var p := Partition(ss[..|ss| - 1], l, r);
      var x := ss[|ss| - 1];
      if x.tables <= l then p.(left := p.left + [x])
      else if x.tables <= r then p.(right := p.right + [x])
      else if x.tables <= l + r then p.(both := p.both + [x])
      else p.(rest := p.rest + [x])
  }

  /** The operands of a binary node whose operator is at `pos` of `c`, and the condition of a
      join. When a join has no `]` after it, `find` gives -1: the condition runs to the
      character before the last, and the right operand is all of `c`. */
  function Operands(c: string, op: Operator, pos: nat): (r: (string, string, string))
    requires pos + 1 < |c|
    ensures |r.0| <= pos && |r.2| <= |c|
  {
    var left := Strip(c[..pos]);
    if op == Product then (left, [], Strip(c[pos + 1..]))
    else
      var fim := FindChar(c, ']', pos + 2);
      if fim >= 0 then (left, c[pos + 2..fim], Strip(c[fim + 1..]))
      else (left, if pos + 2 <= |c| - 1 then c[pos + 2..|c| - 1] else [], Strip(c))
  }

  /** What a binary node does with the selections its operands hand back: the source drops them
      (`novo_esq, _ = aplicar_selects(...)`); the corrected rewrite hands them on. */
  datatype Leftovers = Dropped | HandedOn

  /** What `aplicar_selects(expr, selects)` returns: the rewritten text and the selections it
      hands back. */
  function Apply(expr: string, ss: seq<Select>, leftovers: Leftovers): (string, seq<Select>)
    decreases |expr|, 1
  {
    if ss == [] then (expr, [])
    else match TableLeaf(expr)
      case Some(a) => (Wrap(Conds(Matching(ss, a)), expr), Others(ss, a))
      case None =>
        match Wrapped(expr, '𝝿')
        case Some(cut) =>
          var inner := Apply(cut.body, ss, leftovers);
          ("𝝿[" + cut.head + "](" + inner.0 + ")", inner.1)
        case None =>
          if |expr| >= 2 && expr[0] == '(' && expr[|expr| - 1] == ')' then
            var c := expr[1..|expr| - 1];
            match MainOperator(c, 0, 0)
            case Some(found) => ApplyBinary(c, found.0, found.1, ss, leftovers)
            case None =>
              var inner := Apply(c, ss, leftovers);
              ("(" + inner.0 + ")", inner.1)
          else (Wrap(Conds(ss), expr), [])
  }

  /** `aplicar_selects` at a binary node: each operand gets the selections it covers; the
      selections that need both sides wrap the rebuilt node; the rest is handed back, with what
      the operands handed back when those are handed on. */
  function ApplyBinary(c: string, op: Operator, pos: nat, ss: seq<Select>, leftovers: Leftovers): (string, seq<Select>)
    requires pos + 1 < |c|
    decreases |c| + 1, 0
  {
    var (left, cond, right) := Operands(c, op, pos);
    var split := Partition(ss, ExpressionTables(left), ExpressionTables(right));
    var (newLeft, restLeft) := Apply(left, split.left, leftovers);
    var (newRight, restRight) := Apply(right, split.right, leftovers);
    var node := if op == Join then "(" + newLeft + " ⨝[" + cond + "] " + newRight + ")"
                else "(" + newLeft + " X " + newRight + ")";
    (Wrap(Conds(split.both), node), if leftovers == Dropped then split.rest else split.rest + restLeft + restRight)
  }

  /** The selections taken off the top of formatted text, put back down, and what is handed back
      wrapped on top again. */
  function PushDownFormatted(s: string, leftovers: Leftovers): string
  {
    var (bare, selects) := Extract(s);
    var (placed, rest) := Apply(bare, selects, leftovers);
    Wrap(Conds(rest), placed)
  }

  /** What `empurrar_selects_para_baixo(algebra)` returns, with the operands' leftovers handed on
      (see `DropsUnqualified` for the source's own). */
  function PushDown(algebra: string): (r: string)
    ensures NoSelection(Extract(Format(algebra)).0) && PlainConditions(Extract(Format(algebra)).1)
            ==> Tally(r, '𝛔') == |Extract(Format(algebra)).1|
  {
    var s := Format(algebra);
    if NoSelection(Extract(s).0) && PlainConditions(Extract(s).1) then
      PushDownCounts(s);
      PushDownFormatted(s, HandedOn)
    else PushDownFormatted(s, HandedOn)
  }

  // ---------------------------------------------------------------------------------------------
  // The loops

  /** `for cond in conds: result = f"𝛔[{cond}]({result})"` */
  method WrapSelections(conds: seq<string>, e: string) returns (result: string)
    ensures result == Wrap(conds, e)
  {
    result := e;
    for k := 0 to |conds|
      invariant result == Wrap(conds[..k], e)
    {
      assert conds[..k + 1][..k] == conds[..k];
      result := "𝛔[" + conds[k] + "](" + result + ")";
    }
    assert conds[..|conds|] == conds;
  }

  /** The loop that sorts the selections at a binary node. */
  method PartitionSelections(ss: seq<Select>, l: set<string>, r: set<string>) returns (split: Split)
    ensures split == Partition(ss, l, r)
  {
    split := Split([], [], [], []);
    for k := 0 to |ss|
      invariant split == Partition(ss[..k], l, r)
    {
      assert ss[..k + 1][..k] == ss[..k];
      var x := ss[k];
      if x.tables <= l {
        split := split.(left := split.left + [x]);
      } else if x.tables <= r {
        split := split.(right := split.right + [x]);
      } else if x.tables <= l + r {
        split := split.(both := split.both + [x]);
      } else {
        split := split.(rest := split.rest + [x]);
      }
    }
    assert ss[..|ss|] == ss;
  }

  /** The loop that looks for the main operator of `c`. */
  method FindMainOperator(c: string) returns (found: Option<(Operator, nat)>)
    ensures found == MainOperator(c, 0, 0)
  {
    var depth := 0;
    var i: nat := 0;
    while i < |c|
      invariant i <= |c|
      invariant MainOperator(c, i, depth) == MainOperator(c, 0, 0)
    {
      if c[i] == '(' {
        depth := depth + 1;
      } else if c[i] == ')' {
        depth := depth - 1;
      } else if depth == 0 && i + 1 < |c| && c[i] == '⨝' && c[i + 1] == '[' {
        return Some((Join, i));
      } else if depth == 0 && 0 < i < |c| - 1 && c[i] == 'X' && IsSpace(c[i - 1]) && IsSpace(c[i + 1]) {
        return Some((Product, i));
      }
      i := i + 1;
    }
    return None;
  }

  /** `aplicar_selects(expr, selects)` */
  method ApplySelects(expr: string, ss: seq<Select>, leftovers: Leftovers) returns (text: string, rest: seq<Select>)
    ensures (text, rest) == Apply(expr, ss, leftovers)
    decreases |expr|
  {
    if ss == [] {
      return expr, [];
    }
    match TableLeaf(expr) {
      case Some(a) =>
        text := WrapSelections(Conds(Matching(ss, a)), expr);
        return text, Others(ss, a);
      case None =>
    }
    match Wrapped(expr, '𝝿') {
      case Some(cut) =>
        var inner, innerRest := ApplySelects(cut.body, ss, leftovers);
        return "𝝿[" + cut.head + "](" + inner + ")", innerRest;
      case None =>
    }
    if !(|expr| >= 2 && expr[0] == '(' && expr[|expr| - 1] == ')') {
      text := WrapSelections(Conds(ss), expr);
      return text, [];
    }
    var c := expr[1..|expr| - 1];
    var found := FindMainOperator(c);
    if found.None? {
      var inner, innerRest := ApplySelects(c, ss, leftovers);
      return "(" + inner + ")", innerRest;
    }
    var (op, pos) := found.value;
    var (left, cond, right) := Operands(c, op, pos);
    var split := PartitionSelections(ss, ExpressionTables(left), ExpressionTables(right));
    var newLeft, restLeft := ApplySelects(left, split.left, leftovers);
    var newRight, restRight := ApplySelects(right, split.right, leftovers);
    var node := if op == Join then "(" + newLeft + " ⨝[" + cond + "] " + newRight + ")"
                else "(" + newLeft + " X " + newRight + ")";
    text := WrapSelections(Conds(split.both), node);
    rest := if leftovers == Dropped then split.rest else split.rest + restLeft + restRight;
  }

  /** `empurrar_selects_para_baixo(algebra)`, with the operands' leftovers handed on. */
  method PushSelectsDown(algebra: string) returns (result: string)
    ensures result == PushDown(algebra)
  {
    var bare, selects := ExtractSelects(Format(algebra));
    var placed, rest := ApplySelects(bare, selects, HandedOn);
    result := WrapSelections(Conds(rest), placed);
  }

  // ---------------------------------------------------------------------------------------------
  // Extraction undoes wrapping

  /** `ss` are the selections of `conds` read off from the last condition to the first. */
  predicate ReadOff(conds: seq<string>, ss: seq<Select>)
  {
    |ss| == |conds|
    && forall k :: 0 <= k < |conds| ==> ss[k] == Select(conds[|conds| - 1 - k], DependentTables(conds[|conds| - 1 - k]))
  }

  /** The selections a wrap puts around text that is no selection itself are the ones extraction
      takes off, the outermost (the last condition) first. */
  lemma {:induction false} ExtractWrap(conds: seq<string>, e: string)
    requires forall k :: 0 <= k < |conds| ==> NoLazyStop(conds[k])
    requires '\n' !in e && Wrapped(e, '𝛔').None?
    ensures Extract(Wrap(conds, e)).0 == e && ReadOff(conds, Extract(Wrap(conds, e)).1)
    decreases |conds|
  {
    if conds != [] {
      var init := conds[..|conds| - 1];
      ExtractWrap(init, e);
      WrapNoBreak(init, e);
      ExtractWrapLast(conds, e);
      ReversedStep(conds, Extract(Wrap(init, e)).1, Extract(Wrap(conds, e)).1);
    }
  }

  /** Selections read off in the reverse order of their conditions stay so when a last condition
      is read off first. */
  lemma ReversedStep(conds: seq<string>, inner: seq<Select>, outer: seq<Select>)
    requires conds != [] && ReadOff(conds[..|conds| - 1], inner)
    requires outer == [Select(conds[|conds| - 1], DependentTables(conds[|conds| - 1]))] + inner
    ensures ReadOff(conds, outer)
  {
    var init := conds[..|conds| - 1];
    forall k | 0 <= k < |conds|
      ensures outer[k] == Select(conds[|conds| - 1 - k], DependentTables(conds[|conds| - 1 - k]))
    {
      if k > 0 {
        assert outer[k] == inner[k - 1];
        assert conds[|conds| - 1 - k] == init[|init| - 1 - (k - 1)];
      }
    }
  }

  lemma ExtractWrapLast(conds: seq<string>, e: string)
    requires conds != [] && NoLazyStop(conds[|conds| - 1]) && '\n' !in Wrap(conds[..|conds| - 1], e)
    ensures var inner := Extract(Wrap(conds[..|conds| - 1], e));
      var last := conds[|conds| - 1];
      Extract(Wrap(conds, e)) == (inner.0, [Select(last, DependentTables(last))] + inner.1)
  {
    var w := Wrap(conds[..|conds| - 1], e);
    var last := conds[|conds| - 1];
    assert Wrap(conds, e) == "𝛔[" + last + "](" + w + ")";
    ExtractSelection(last, w);
  }

  lemma {:induction false} WrapNoBreak(conds: seq<string>, e: string)
    requires forall k :: 0 <= k < |conds| ==> '\n' !in conds[k]
    requires '\n' !in e
    ensures '\n' !in Wrap(conds, e)
    decreases |conds|
  {
    if conds != [] {
      WrapNoBreak(conds[..|conds| - 1], e);
    }
  }

  // ---------------------------------------------------------------------------------------------
  // Sorting the selections

  /** All the selections of the four kinds. */
  function Kinds(p: Split): multiset<Select>
  {
    multiset(p.left) + multiset(p.right) + multiset(p.both) + multiset(p.rest)
  }

  /** The four kinds hold every selection exactly once. */
  lemma {:induction false} PartitionKeeps(ss: seq<Select>, l: set<string>, r: set<string>)
    ensures Kinds(Partition(ss, l, r)) == multiset(ss)
    decreases |ss|
  {
    if ss != [] {
      var init, x := ss[..|ss| - 1], ss[|ss| - 1];
      PartitionKeeps(init, l, r);
      var p := Partition(init, l, r);
      assert ss == init + [x];
      if x.tables <= l {
        assert Partition(ss, l, r) == p.(left := p.left + [x]);
      } else if x.tables <= r {
        assert Partition(ss, l, r) == p.(right := p.right + [x]);
      } else if x.tables <= l + r {
        assert Partition(ss, l, r) == p.(both := p.both + [x]);
      } else {
        assert Partition(ss, l, r) == p.(rest := p.rest + [x]);
      }
    }
  }

  /** Each kind holds the selections its test lets through and no other. */
  lemma {:induction false} PartitionSorts(ss: seq<Select>, l: set<string>, r: set<string>)
    ensures forall x :: x in Partition(ss, l, r).left ==> x.tables <= l
    ensures forall x :: x in Partition(ss, l, r).right ==> !(x.tables <= l) && x.tables <= r
    ensures forall x :: x in Partition(ss, l, r).both ==> !(x.tables <= l) && !(x.tables <= r) && x.tables <= l + r
    ensures forall x :: x in Partition(ss, l, r).rest ==> !(x.tables <= l + r)
    decreases |ss|
  {
    if ss != [] {
      PartitionSorts(ss[..|ss| - 1], l, r);
    }
  }

  /** Each selection goes to exactly one side of the leaf filter. */
  lemma {:induction false} MatchingKeeps(ss: seq<Select>, a: string)
    ensures multiset(Matching(ss, a)) + multiset(Others(ss, a)) == multiset(ss)
    decreases |ss|
  {
    if ss != [] {
      MatchingKeeps(ss[1..], a);
      assert ss == [ss[0]] + ss[1..];
      if ss[0].tables == {a} {
        assert Matching(ss, a) == [ss[0]] + Matching(ss[1..], a) && Others(ss, a) == Others(ss[1..], a);
      } else {
        assert Matching(ss, a) == Matching(ss[1..], a) && Others(ss, a) == [ss[0]] + Others(ss[1..], a);
      }
    }
  }

  /** The selections on the alias alone are applied, the others handed back. */
  lemma {:induction false} MatchingSorts(ss: seq<Select>, a: string)
    ensures forall x :: x in Matching(ss, a) ==> x.tables == {a}
    ensures forall x :: x in Others(ss, a) ==> x.tables != {a}
    decreases |ss|
  {
    if ss != [] {
      MatchingSorts(ss[1..], a);
    }
  }

  // ---------------------------------------------------------------------------------------------
  // No selection is lost

  /** Text holding no selection symbol. */
  predicate NoSelection(s: string)
  {
    forall k :: 0 <= k < |s| ==> s[k] != '𝛔'
  }

  /** Conditions holding no selection symbol. */
  predicate PlainConditions(ss: seq<Select>)
  {
    forall k :: 0 <= k < |ss| ==> NoSelection(ss[k].cond)
  }

  lemma {:induction false} NoSelectionTally(s: string)
    requires NoSelection(s)
    ensures Tally(s, '𝛔') == 0
    decreases |s|
  {
    if s != [] {
      NoSelectionTally(s[1..]);
    }
  }

  lemma StripNoSelection(s: string)
    requires NoSelection(s)
    ensures NoSelection(Strip(s))
  {
    var t := TrimLeft(s);
    TrimLeftRemovesSpace(s);
    TrimRightRemovesSpace(t);
  }

  /** Each condition of a wrap adds one selection symbol. */
  lemma {:induction false} WrapTally(conds: seq<string>, e: string)
    requires forall k :: 0 <= k < |conds| ==> NoSelection(conds[k])
    ensures Tally(Wrap(conds, e), '𝛔') == |conds| + Tally(e, '𝛔')
    decreases |conds|
  {
    if conds != [] {
      var init, last := conds[..|conds| - 1], conds[|conds| - 1];
      WrapTally(init, e);
      var w := Wrap(init, e);
      NoSelectionTally(last);
      TallyConcat("𝛔[" + last + "](" + w, ")", '𝛔');
      TallyConcat("𝛔[" + last + "](", w, '𝛔');
      TallyConcat("𝛔[" + last, "](", '𝛔');
      TallyConcat("𝛔[", last, '𝛔');
    }
  }

  lemma ConditionsOf(ss: seq<Select>, ts: seq<Select>)
    requires PlainConditions(ss) && multiset(ts) <= multiset(ss)
    ensures PlainConditions(ts) && forall k :: 0 <= k < |Conds(ts)| ==> NoSelection(Conds(ts)[k])
  {
    forall k | 0 <= k < |ts|
      ensures NoSelection(ts[k].cond)
    {
      assert ts[k] in multiset(ss);
    }
  }

  /** The rewritten text `r.0` holds a selection symbol for at most as many of the selections `ss`
      as are not handed back in `r.1`, and for exactly as many when leftovers are handed on. */
  predicate Counted(ss: seq<Select>, r: (string, seq<Select>), leftovers: Leftovers)
  {
    Tally(r.0, '𝛔') + |r.1| <= |ss|
    && (leftovers == HandedOn ==> Tally(r.0, '𝛔') + |r.1| == |ss|)
  }

  /** Over text without selections, every selection given is either written into the result once
      or handed back; the source's rewrite, which drops the operands' leftovers, can only lose
      some. */
  lemma {:induction false} ApplyCounts(expr: string, ss: seq<Select>, leftovers: Leftovers)
    requires NoSelection(expr) && PlainConditions(ss)
    ensures Counted(ss, Apply(expr, ss, leftovers), leftovers)
    decreases |expr|, 1
  {
    NoSelectionTally(expr);
    if ss == [] {
    } else if TableLeaf(expr).Some? {
      var a := TableLeaf(expr).value;
      LeafCounts(expr, a, ss, leftovers);
    } else if Wrapped(expr, '𝝿').Some? {
      var cut := Wrapped(expr, '𝝿').value;
      ProjectionParts(expr, cut);
      ApplyCounts(cut.body, ss, leftovers);
      var inner := Apply(cut.body, ss, leftovers);
      WrappedCounts("𝝿[" + cut.head + "](", inner, ")", ss, leftovers);
      assert Apply(expr, ss, leftovers) == ("𝝿[" + cut.head + "](" + inner.0 + ")", inner.1);
    } else if |expr| >= 2 && expr[0] == '(' && expr[|expr| - 1] == ')' {
      var c := expr[1..|expr| - 1];
      assert NoSelection(c);
      match MainOperator(c, 0, 0)
      case Some(found) =>
        ApplyBinaryCounts(c, found.0, found.1, ss, leftovers);
      case None =>
        ApplyCounts(c, ss, leftovers);
        var inner := Apply(c, ss, leftovers);
        WrappedCounts("(", inner, ")", ss, leftovers);
        assert Apply(expr, ss, leftovers) == ("(" + inner.0 + ")", inner.1);
    } else {
      ConditionsOf(ss, ss);
      WrapTally(Conds(ss), expr);
    }
  }

  lemma LeafCounts(expr: string, a: string, ss: seq<Select>, leftovers: Leftovers)
    requires NoSelection(expr) && PlainConditions(ss) && ss != [] && TableLeaf(expr) == Some(a)
    ensures Counted(ss, Apply(expr, ss, leftovers), leftovers)
  {
    NoSelectionTally(expr);
    MatchingKeeps(ss, a);
    ConditionsOf(ss, Matching(ss, a));
    WrapTally(Conds(Matching(ss, a)), expr);
    assert |Matching(ss, a)| + |Others(ss, a)| == |ss| by {
      assert |multiset(Matching(ss, a)) + multiset(Others(ss, a))| == |multiset(ss)|;
    }
    assert Apply(expr, ss, leftovers) == (Wrap(Conds(Matching(ss, a)), expr), Others(ss, a));
  }

  /** Text around a rewritten part adds no selection symbol. */
  lemma WrappedCounts(before: string, inner: (string, seq<Select>), after: string, ss: seq<Select>, leftovers: Leftovers)
    requires NoSelection(before) && NoSelection(after) && Counted(ss, inner, leftovers)
    ensures Counted(ss, (before + inner.0 + after, inner.1), leftovers)
  {
    NoSelectionTally(before);
    NoSelectionTally(after);
    TallyConcat(before + inner.0, after, '𝛔');
    TallyConcat(before, inner.0, '𝛔');
  }

  /** The groups of a projection that matched are parts of its text. */
  lemma ProjectionParts(expr: string, cut: Cut)
    requires NoSelection(expr) && Wrapped(expr, '𝝿') == Some(cut)
    ensures NoSelection(cut.head) && NoSelection(cut.body)
  {
    var j := LazyClose(expr, 2).value;
    assert cut.head == expr[2..j];
  }

  lemma {:induction false} ApplyBinaryCounts(c: string, op: Operator, pos: nat, ss: seq<Select>, leftovers: Leftovers)
    requires pos + 1 < |c| && NoSelection(c) && PlainConditions(ss)
    ensures Counted(ss, ApplyBinary(c, op, pos, ss, leftovers), leftovers)
    decreases |c| + 1, 0
  {
    var (left, cond, right) := Operands(c, op, pos);
    OperandsPlain(c, op, pos);
    var split := Partition(ss, ExpressionTables(left), ExpressionTables(right));
    PartitionKeeps(ss, ExpressionTables(left), ExpressionTables(right));
    assert |split.left| + |split.right| + |split.both| + |split.rest| == |ss| by {
      assert |Kinds(split)| == |multiset(ss)|;
    }
    ConditionsOf(ss, split.left);
    ConditionsOf(ss, split.right);
    ConditionsOf(ss, split.both);
    ApplyCounts(left, split.left, leftovers);
    ApplyCounts(right, split.right, leftovers);
    var (newLeft, restLeft) := Apply(left, split.left, leftovers);
    var (newRight, restRight) := Apply(right, split.right, leftovers);
    var node := if op == Join then "(" + newLeft + " ⨝[" + cond + "] " + newRight + ")"
                else "(" + newLeft + " X " + newRight + ")";
    assert Tally(node, '𝛔') == Tally(newLeft, '𝛔') + Tally(newRight, '𝛔') by {
      NodeTally(op, newLeft, cond, newRight);
    }
    WrapTally(Conds(split.both), node);
  }

  /** The operands and the join condition are parts of the text. */
  lemma OperandsPlain(c: string, op: Operator, pos: nat)
    requires pos + 1 < |c| && NoSelection(c)
    ensures NoSelection(Operands(c, op, pos).0) && NoSelection(Operands(c, op, pos).1) && NoSelection(Operands(c, op, pos).2)
  {
    StripNoSelection(c[..pos]);
    if op == Product {
      StripNoSelection(c[pos + 1..]);
    } else {
      JoinOperandsPlain(c, pos);
    }
  }

  lemma JoinOperandsPlain(c: string, pos: nat)
    requires pos + 1 < |c| && NoSelection(c)
    ensures NoSelection(Operands(c, Join, pos).1) && NoSelection(Operands(c, Join, pos).2)
  {
    JoinConditionPlain(c, pos);
    JoinRightPlain(c, pos);
  }

  lemma JoinConditionPlain(c: string, pos: nat)
    requires pos + 1 < |c| && NoSelection(c)
    ensures NoSelection(Operands(c, Join, pos).1)
  {
  }

  lemma JoinRightPlain(c: string, pos: nat)
    requires pos + 1 < |c| && NoSelection(c)
    ensures NoSelection(Operands(c, Join, pos).2)
  {
    var fim := FindChar(c, ']', pos + 2);
    if fim >= 0 {
      StripNoSelection(c[fim + 1..]);
    } else {
      StripNoSelection(c);
    }
  }

  lemma NodeTally(op: Operator, l: string, cond: string, r: string)
    requires NoSelection(cond)
    ensures Tally(if op == Join then "(" + l + " ⨝[" + cond + "] " + r + ")" else "(" + l + " X " + r + ")", '𝛔')
         == Tally(l, '𝛔') + Tally(r, '𝛔')
  {
    NoSelectionTally(cond);
    if op == Join {
      TallyConcat("(" + l + " ⨝[" + cond + "] " + r, ")", '𝛔');
      TallyConcat("(" + l + " ⨝[" + cond + "] ", r, '𝛔');
      TallyConcat("(" + l + " ⨝[" + cond, "] ", '𝛔');
      TallyConcat("(" + l + " ⨝[", cond, '𝛔');
      TallyConcat("(" + l, " ⨝[", '𝛔');
      TallyConcat("(", l, '𝛔');
    } else {
      TallyConcat("(" + l + " X " + r, ")", '𝛔');
      TallyConcat("(" + l + " X ", r, '𝛔');
      TallyConcat("(" + l, " X ", '𝛔');
      TallyConcat("(", l, '𝛔');
    }
  }

  /** What is handed back is among the selections given. */
  lemma {:induction false} ApplyRestFrom(expr: string, ss: seq<Select>, leftovers: Leftovers)
    ensures multiset(Apply(expr, ss, leftovers).1) <= multiset(ss)
    decreases |expr|, 1
  {
    if ss == [] {
    } else if TableLeaf(expr).Some? {
      MatchingKeeps(ss, TableLeaf(expr).value);
    } else if Wrapped(expr, '𝝿').Some? {
      ApplyRestFrom(Wrapped(expr, '𝝿').value.body, ss, leftovers);
    } else if |expr| >= 2 && expr[0] == '(' && expr[|expr| - 1] == ')' {
      var c := expr[1..|expr| - 1];
      match MainOperator(c, 0, 0)
      case Some(found) =>
        ApplyBinaryRestFrom(c, found.0, found.1, ss, leftovers);
      case None =>
        ApplyRestFrom(c, ss, leftovers);
    }
  }

  lemma {:induction false} ApplyBinaryRestFrom(c: string, op: Operator, pos: nat, ss: seq<Select>, leftovers: Leftovers)
    requires pos + 1 < |c|
    ensures multiset(ApplyBinary(c, op, pos, ss, leftovers).1) <= multiset(ss)
    decreases |c| + 1, 0
  {
    var (left, cond, right) := Operands(c, op, pos);
    var split := Partition(ss, ExpressionTables(left), ExpressionTables(right));
    PartitionKeeps(ss, ExpressionTables(left), ExpressionTables(right));
    ApplyRestFrom(left, split.left, leftovers);
    ApplyRestFrom(right, split.right, leftovers);
    var restLeft, restRight := Apply(left, split.left, leftovers).1, Apply(right, split.right, leftovers).1;
    assert multiset(split.rest + restLeft + restRight) <= Kinds(split);
  }

  /** Over formatted text whose only selections are the ones at its top, the corrected rewrite
      writes each of them back exactly once; the source's can only write fewer. */
  lemma PushDownCounts(s: string)
    requires NoSelection(Extract(s).0) && PlainConditions(Extract(s).1)
    ensures Tally(PushDownFormatted(s, HandedOn), '𝛔') == |Extract(s).1|
    ensures Tally(PushDownFormatted(s, Dropped), '𝛔') <= |Extract(s).1|
  {
    var (bare, selects) := Extract(s);
    PushDownCountsIn(bare, selects, HandedOn);
    PushDownCountsIn(bare, selects, Dropped);
  }

  lemma PushDownCountsIn(bare: string, selects: seq<Select>, leftovers: Leftovers)
    requires NoSelection(bare) && PlainConditions(selects)
    ensures var (placed, rest) := Apply(bare, selects, leftovers);
      Counted(selects, (Wrap(Conds(rest), placed), []), leftovers)
  {
    var (placed, rest) := Apply(bare, selects, leftovers);
    ApplyCounts(bare, selects, leftovers);
    ApplyRestFrom(bare, selects, leftovers);
    ConditionsOf(selects, rest);
    WrapTally(Conds(rest), placed);
  }

  // ---------------------------------------------------------------------------------------------
  // A product of two relations

  /** The scan passes over text with no parenthesis, no `⨝` and no `X` followed by whitespace. */
  lemma {:induction false} MainOperatorSkips(c: string, i: nat, j: nat, depth: int)
    requires i <= j <= |c|
    requires forall k :: i <= k < j ==> c[k] != '(' && c[k] != ')' && c[k] != '⨝'
    requires forall k :: i <= k < j && c[k] == 'X' ==> k + 1 < |c| && !IsSpace(c[k + 1])
    ensures MainOperator(c, i, depth) == MainOperator(c, j, depth)
    decreases j - i
  {
    if i < j {
      MainOperatorSkips(c, i + 1, j, depth);
    }
  }

  /** `tabela[alias]` is a lone relation with that alias. */
  lemma LeafAlias(t: string, a: string)
    requires IsName(t) && IsName(a)
    ensures TableLeaf(t + "[" + a + "]") == Some(a)
  {
    var s := t + "[" + a + "]";
    RunOver(s, 0, |t|);
    RunOver(s, |t| + 1, |t| + 1 + |a|);
    assert s[|t| + 1..|t| + 1 + |a|] == a;
  }

  /** At a relation, the selections on its alias alone wrap it, the first innermost, and all
      others are handed back. */
  lemma ApplyLeaf(l: string, a: string, ss: seq<Select>, leftovers: Leftovers)
    requires TableLeaf(l) == Some(a)
    ensures Apply(l, ss, leftovers) == (Wrap(Conds(Matching(ss, a)), l), Others(ss, a))
  {
  }

  /** Text with no whitespace, parenthesis or `⨝` that ends in `]`, as `tabela[alias]` is. */
  predicate Atom(s: string)
  {
    s != [] && s[|s| - 1] == ']'
    && forall k :: 0 <= k < |s| ==> !IsSpace(s[k]) && s[k] != '(' && s[k] != ')' && s[k] != '⨝'
  }

  lemma RelationAtom(t: string, a: string)
    requires IsName(t) && IsName(a)
    ensures Atom(t + "[" + a + "]")
  {
  }

  /** Between two atoms, the main operator is the `X`. */
  lemma ProductOperator(l: string, r: string)
    requires Atom(l) && Atom(r)
    ensures MainOperator(l + " X " + r, 0, 0) == Some((Product, |l| + 1))
  {
    var c := l + " X " + r;
    forall k | 0 <= k < |l| && c[k] == 'X'
      ensures k + 1 < |c| && !IsSpace(c[k + 1])
    {
      assert c[k + 1] == l[k + 1];
    }
    MainOperatorSkips(c, 0, |l| + 1, 0);
  }

  /** The operands of the `X` between two atoms are the atoms. */
  lemma ProductOperands(l: string, r: string)
    requires Atom(l) && Atom(r)
    ensures Operands(l + " X " + r, Product, |l| + 1) == (l, [], r)
  {
    var c := l + " X " + r;
    assert c[..|l| + 1] == l + " " == [] + l + " ";
    assert c[|l| + 2..] == " " + r == " " + r + [];
    StripPadded([], l, " ");
    StripPadded(" ", r, []);
  }

  /** Over two relations, each gets the selections on its own alias; the selections on both wrap
      the product; the others are handed back, together with the ones on neither alias that
      were sent to an operand only when the leftovers are handed on. */
  lemma ProductOfLeaves(t1: string, a: string, t2: string, b: string, ss: seq<Select>, leftovers: Leftovers)
    requires IsName(t1) && IsName(a) && IsName(t2) && IsName(b) && ss != []
    ensures var l, r := t1 + "[" + a + "]", t2 + "[" + b + "]";
      var split := Partition(ss, {a}, {b});
      Apply("(" + l + " X " + r + ")", ss, leftovers)
      == (Wrap(Conds(split.both), "(" + Wrap(Conds(Matching(split.left, a)), l) + " X " + Wrap(Conds(Matching(split.right, b)), r) + ")"),
          if leftovers == Dropped then split.rest else split.rest + Others(split.left, a) + Others(split.right, b))
  {
    var l, r := t1 + "[" + a + "]", t2 + "[" + b + "]";
    RelationAtom(t1, a);
    RelationAtom(t2, b);
    LeafAlias(t1, a);
    LeafAlias(t2, b);
    LoneTable(t1, a);
    LoneTable(t2, b);
    ProductOfAtoms(l, a, r, b, ss, leftovers);
  }

  lemma ProductOfAtoms(l: string, a: string, r: string, b: string, ss: seq<Select>, leftovers: Leftovers)
    requires Atom(l) && Atom(r) && ss != []
    requires TableLeaf(l) == Some(a) && TableLeaf(r) == Some(b)
    requires ExpressionTables(l) == {a} && ExpressionTables(r) == {b}
    ensures var split := Partition(ss, {a}, {b});
      Apply("(" + l + " X " + r + ")", ss, leftovers)
      == (Wrap(Conds(split.both), "(" + Wrap(Conds(Matching(split.left, a)), l) + " X " + Wrap(Conds(Matching(split.right, b)), r) + ")"),
          if leftovers == Dropped then split.rest else split.rest + Others(split.left, a) + Others(split.right, b))
  {
    ProductGroup(l, r, ss, leftovers);
    ProductOperands(l, r);
    ApplyBinaryProduct(l + " X " + r, |l| + 1, l, a, r, b, ss, leftovers);
  }

  /** A parenthesised product of two atoms is the binary node at its ` X `. */
  lemma ProductGroup(l: string, r: string, ss: seq<Select>, leftovers: Leftovers)
    requires Atom(l) && Atom(r) && ss != []
    ensures Apply("(" + l + " X " + r + ")", ss, leftovers) == ApplyBinary(l + " X " + r, Product, |l| + 1, ss, leftovers)
  {
    var c := l + " X " + r;
    assert "(" + c + ")" == "(" + l + " X " + r + ")";
    ProductOperator(l, r);
    ApplyGroup(c, ss, leftovers);
  }

  /** A parenthesised text with a main operator is a binary node. */
  lemma ApplyGroup(c: string, ss: seq<Select>, leftovers: Leftovers)
    requires ss != [] && MainOperator(c, 0, 0).Some?
    ensures var found := MainOperator(c, 0, 0).value;
      Apply("(" + c + ")", ss, leftovers) == ApplyBinary(c, found.0, found.1, ss, leftovers)
  {
    var e := "(" + c + ")";
    assert e[1..|e| - 1] == c;
    assert TableLeaf(e) == None by {
      assert RunEnd(e, 0) == 0;
    }
  }

  /** A product of two relations. */
  lemma ApplyBinaryProduct(c: string, pos: nat, l: string, a: string, r: string, b: string, ss: seq<Select>, leftovers: Leftovers)
    requires pos + 1 < |c| && Operands(c, Product, pos) == (l, [], r)
    requires TableLeaf(l) == Some(a) && TableLeaf(r) == Some(b)
    requires ExpressionTables(l) == {a} && ExpressionTables(r) == {b}
    ensures var split := Partition(ss, {a}, {b});
      ApplyBinary(c, Product, pos, ss, leftovers)
      == (Wrap(Conds(split.both), "(" + Wrap(Conds(Matching(split.left, a)), l) + " X " + Wrap(Conds(Matching(split.right, b)), r) + ")"),
          if leftovers == Dropped then split.rest else split.rest + Others(split.left, a) + Others(split.right, b))
  {
    var split := Partition(ss, {a}, {b});
    ApplyLeaf(l, a, split.left, leftovers);
    ApplyLeaf(r, b, split.right, leftovers);
  }

  /** As written: a selection whose condition has no `alias.attribute` is sent to the left
      relation of a product, which hands it back, and the product drops it, so it is lost. */
  lemma DropsUnqualified(t1: string, a: string, t2: string, b: string, cond: string)
    requires IsName(t1) && IsName(a) && IsName(t2) && IsName(b)
    requires NoLazyStop(cond) && '.' !in cond
    ensures var product := "(" + t1 + "[" + a + "]" + " X " + t2 + "[" + b + "]" + ")";
      PushDownFormatted("𝛔[" + cond + "](" + product + ")", Dropped) == product
  {
    var l, r := t1 + "[" + a + "]", t2 + "[" + b + "]";
    assert "(" + t1 + "[" + a + "]" + " X " + t2 + "[" + b + "]" + ")" == "(" + l + " X " + r + ")";
    RelationAtom(t1, a);
    RelationAtom(t2, b);
    LeafAlias(t1, a);
    LeafAlias(t2, b);
    LoneTable(t1, a);
    LoneTable(t2, b);
    NoDotNoTables(cond);
    UnqualifiedOverAtoms(l, a, r, b, cond);
  }

  /** Corrected: the same selection is handed back to the top and stays over the product. */
  lemma KeepsUnqualified(t1: string, a: string, t2: string, b: string, cond: string)
    requires IsName(t1) && IsName(a) && IsName(t2) && IsName(b)
    requires NoLazyStop(cond) && '.' !in cond
    ensures var product := "(" + t1 + "[" + a + "]" + " X " + t2 + "[" + b + "]" + ")";
      PushDownFormatted("𝛔[" + cond + "](" + product + ")", HandedOn) == "𝛔[" + cond + "](" + product + ")"
  {
    var l, r := t1 + "[" + a + "]", t2 + "[" + b + "]";
    assert "(" + t1 + "[" + a + "]" + " X " + t2 + "[" + b + "]" + ")" == "(" + l + " X " + r + ")";
    RelationAtom(t1, a);
    RelationAtom(t2, b);
    LeafAlias(t1, a);
    LeafAlias(t2, b);
    LoneTable(t1, a);
    LoneTable(t2, b);
    NoDotNoTables(cond);
    UnqualifiedOverAtoms(l, a, r, b, cond);
  }

  /** A selection on no alias over a product of two relations: the source's rewrite loses it,
      the corrected one keeps it on top. */
  lemma UnqualifiedOverAtoms(l: string, a: string, r: string, b: string, cond: string)
    requires Atom(l) && Atom(r)
    requires TableLeaf(l) == Some(a) && TableLeaf(r) == Some(b)
    requires ExpressionTables(l) == {a} && ExpressionTables(r) == {b}
    requires NoLazyStop(cond) && DependentTables(cond) == {}
    ensures var product := "(" + l + " X " + r + ")";
      PushDownFormatted("𝛔[" + cond + "](" + product + ")", Dropped) == product
      && PushDownFormatted("𝛔[" + cond + "](" + product + ")", HandedOn) == "𝛔[" + cond + "](" + product + ")"
  {
    var product := "(" + l + " X " + r + ")";
    var sel := Select(cond, {});
    AtomsExtract(l, r, cond);
    UnqualifiedApply(l, a, r, b, sel, Dropped);
    UnqualifiedApply(l, a, r, b, sel, HandedOn);
    assert Conds([sel]) == [cond];
  }

  /** The product of two relations hands back a selection on no alias, or drops it. */
  lemma UnqualifiedApply(l: string, a: string, r: string, b: string, sel: Select, leftovers: Leftovers)
    requires Atom(l) && Atom(r)
    requires TableLeaf(l) == Some(a) && TableLeaf(r) == Some(b)
    requires ExpressionTables(l) == {a} && ExpressionTables(r) == {b}
    requires sel.tables == {}
    ensures Apply("(" + l + " X " + r + ")", [sel], leftovers) == ("(" + l + " X " + r + ")", if leftovers == Dropped then [] else [sel])
  {
    assert Partition([sel], {a}, {b}) == Split([sel], [], [], []) by {
      assert [sel][..0] == [];
    }
    assert Matching([sel], a) == [] && Others([sel], a) == [sel] by {
      assert [sel][1..] == [];
    }
    ProductOfAtoms(l, a, r, b, [sel], leftovers);
  }

  /** A selection over a product of atoms is taken off whole. */
  lemma AtomsExtract(l: string, r: string, cond: string)
    requires Atom(l) && Atom(r) && NoLazyStop(cond)
    ensures var product := "(" + l + " X " + r + ")";
      Extract("𝛔[" + cond + "](" + product + ")") == (product, [Select(cond, DependentTables(cond))])
  {
    var product := "(" + l + " X " + r + ")";
    assert '\n' !in product by {
      assert forall k :: 0 <= k < |l| ==> l[k] != '\n';
      assert forall k :: 0 <= k < |r| ==> r[k] != '\n';
    }
    assert Extract(product) == (product, []);
    ExtractSelection(cond, product);
    assert [Select(cond, DependentTables(cond))] + [] == [Select(cond, DependentTables(cond))];
  }

  /** A condition without a dot depends on no alias. */
  lemma NoDotNoTables(cond: string)
    requires '.' !in cond
    ensures DependentTables(cond) == {}
  {
    QualifiersSound(cond, 0);
    forall k | 0 <= k < |cond|
      ensures !QualifiedAt(cond, k)
    {
      var q := RunEnd(cond, k);
      assert q < |cond| ==> cond[q] != '.';
    }
  }
}

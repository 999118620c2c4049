/**
 * `plantando_arvores/otimizador`: three passes over the n-ary tree. Selections move towards the
 * relations, a selection over a product whose condition reads both sides becomes a join, and the
 * attributes a root projection needs are handed down the tree (which changes nothing).
 */
module Optimizer {
  import opened Text
  import opened QueryProcessing
  import opened NaryTree

  // ---------------------------------------------------------------------------------------------
  // _aliases_in

  /** The characters `_aliases_in` gathers into a token: letters, digits and the dot. */
  predicate InToken(c: char) { IsAlnum(c) || c == '.' }

  /** The token being read at the end of `s`: its longest suffix of token characters. */
  function Token(s: string): string
  {
    if s == [] || !InToken(s[|s| - 1]) then [] else Token(s[..|s| - 1]) + [s[|s| - 1]]
  }

  /** The token is made of token characters only. */
  lemma {:induction false} TokenChars(s: string)
    ensures forall k :: 0 <= k < |Token(s)| ==> InToken(Token(s)[k])
  {
    if s != [] && InToken(s[|s| - 1]) {
      TokenChars(s[..|s| - 1]);
    }
  }

  /** The alias a token names: the part before its first dot, when it has one. */
  function AliasOf(tok: string): set<string>
  {
    if '.' in tok then {BeforeFirst(tok, '.')} else {}
  }

  /** The aliases of the tokens that a character of `s` has already ended. */
  function Ended(s: string): set<string>
  {
    if s == [] then {}
    else if InToken(s[|s| - 1]) then Ended(s[..|s| - 1])
    else Ended(s[..|s| - 1]) + AliasOf(Token(s[..|s| - 1]))
  }

  /** What `_aliases_in(cond)` returns: the alias of every token, the last one included. Every
      alias is the dot-free head of a token, made of letters and digits only. */
  function Aliases(cond: string): (r: set<string>)
    ensures forall a :: a in r ==> forall k :: 0 <= k < |a| ==> IsAlnum(a[k])
  {
    EndedAlnum(cond);
    TokenChars(cond);
    TokenHeadAlnum(Token(cond));
    Ended(cond) + AliasOf(Token(cond))
  }

  /** `_aliases_in(cond)` */
  method AliasesIn(cond: string) returns (out: set<string>)
    ensures out == Aliases(cond)
  {
    out := {};
    var tok := [];
    for i := 0 to |cond|
      invariant tok == Token(cond[..i]) && out == Ended(cond[..i])
    {
      assert cond[..i + 1][..i] == cond[..i];
      var c := cond[i];
      if IsAlnum(c) || c == '.' {
        tok := tok + [c];
      } else {
        if '.' in tok {
          out := out + {BeforeFirst(tok, '.')};
        }
        tok := [];
      }
    }
    assert cond[..|cond|] == cond;
    if '.' in tok {
      out := out + {BeforeFirst(tok, '.')};
    }
  }

  /** A run of token characters names at most the one alias before its first dot. */
  lemma {:induction false} AliasesOfRun(t: string)
    requires forall k :: 0 <= k < |t| ==> InToken(t[k])
    ensures Ended(t) == {} && Token(t) == t && Aliases(t) == AliasOf(t)
  {
    if t != [] {
      var init := t[..|t| - 1];
      AliasesOfRun(init);
    }
  }

  /** A character that is no letter, digit or dot (an underscore, a space, an operator) ends the
      token: the aliases of the text around it are those of either side. */
  lemma AliasesSeparated(a: string, x: char, b: string)
    requires !InToken(x)
    ensures Aliases(a + [x] + b) == Aliases(a) + Aliases(b)
  {
    EndedSeparated(a, x, b);
  }

  /** The token at the end never reaches back past a separator. */
  lemma {:induction false} EndedSeparated(a: string, x: char, b: string)
    requires !InToken(x)
    ensures Token(a + [x] + b) == Token(b)
    ensures Ended(a + [x] + b) == Aliases(a) + Ended(b)
    decreases |b|
  {
    var s := a + [x] + b;
    if b == [] {
      assert s[..|s| - 1] == a && s[|s| - 1] == x;
      Unfold(s, a, x);
    } else {
      var init := b[..|b| - 1];
      var last := b[|b| - 1];
      EndedSeparated(a, x, init);
      assert s[..|s| - 1] == a + [x] + init && s[|s| - 1] == last;
      Unfold(s, a + [x] + init, last);
      Unfold(b, init, last);
    }
  }

  /** One step of the scan: the token and the ended aliases of a text with one more character. */
  lemma Unfold(s: string, init: string, last: char)
    requires s != [] && s[..|s| - 1] == init && s[|s| - 1] == last
    ensures Token(s) == if InToken(last) then Token(init) + [last] else []
    ensures Ended(s) == if InToken(last) then Ended(init) else Ended(init) + AliasOf(Token(init))
  {
  }

  /** The aliases of the ended tokens are letters and digits only. */
  lemma {:induction false} EndedAlnum(s: string)
    ensures forall a :: a in Ended(s) ==> forall k :: 0 <= k < |a| ==> IsAlnum(a[k])
    decreases |s|
  {
    if s != [] {
      var init := s[..|s| - 1];
      EndedAlnum(init);
      if !InToken(s[|s| - 1]) {
        TokenChars(init);
        TokenHeadAlnum(Token(init));
      }
    }
  }

  lemma TokenHeadAlnum(t: string)
    requires forall k :: 0 <= k < |t| ==> InToken(t[k])
    ensures forall a :: a in AliasOf(t) ==> forall k :: 0 <= k < |a| ==> IsAlnum(a[k])
  {
    var b := BeforeFirst(t, '.');
    BeforeFirstExcludes(t, '.');
    forall k | 0 <= k < |b|
      ensures IsAlnum(b[k])
    {
      assert b[k] == t[k] && b[k] in b;
    }
  }

  // ---------------------------------------------------------------------------------------------
  // _aliases_subtree

  /** `s.split(c)[-1]`: the text after the last `c`, all of `s` when there is none. */
  function AfterLast(s: string, c: char): (r: string)
    ensures |r| <= |s| && r == s[|s| - |r|..] && c !in r
    ensures |r| < |s| ==> s[|s| - |r| - 1] == c
  {
    if s == [] || s[|s| - 1] == c then []
    else
      var r := AfterLast(s[..|s| - 1], c);
      assert s[|s| - |r| - 1..] == r + [s[|s| - 1]];
      r + [s[|s| - 1]]
  }

  /** The alias of a leaf `tabela[alias]`: what follows the last `[`, its last character cut. */
  function LeafAlias(op: string): (r: string)
    ensures '[' !in r
  {
    var last := AfterLast(op, '[');
    if last == [] then [] else last[..|last| - 1]
  }

  /** The aliases of every label of the tree that ends in `]`, as a leaf `tabela[alias]` does,
      wherever the label stands. */
  function LeafAliases(n: Node): set<string>
    decreases n, 1
  {
    (if EndsWith(n.op, "]") then {LeafAlias(n.op)} else {}) + LeafAliasesOf(n.children)
  }

  function LeafAliasesOf(cs: seq<Node>): set<string>
    decreases cs, 0
  {
    if cs == [] then {} else LeafAliases(cs[0]) + LeafAliasesOf(cs[1..])
  }

  /** The leaf aliases of a child are leaf aliases of the list of children. */
  lemma {:induction false} LeafAliasesOfHas(cs: seq<Node>, k: nat)
    requires k < |cs|
    ensures LeafAliases(cs[k]) <= LeafAliasesOf(cs)
  {
    if k > 0 {
      LeafAliasesOfHas(cs[1..], k - 1);
    }
  }

  /** `_aliases_subtree(node)` (and `_atributos_subarvore`, written the same way): the alias of a
      label that ends in `]`, through selections and projections to their operand, the union at a
      product or join, and nothing for any other label. */
  function AliasesSubtree(n: Node): (r: set<string>)
    requires Sound(n)
    ensures r <= LeafAliases(n)
    decreases n
  {
    if EndsWith(n.op, "]") then {LeafAlias(n.op)}
    else if IsSelection(n.op) || IsProjection(n.op) then
      LeafAliasesOfHas(n.children, 0);
      AliasesSubtree(n.children[0])
    else if IsProduct(n.op) then
      LeafAliasesOfHas(n.children, 0);
      LeafAliasesOfHas(n.children, 1);
      AliasesSubtree(n.children[0]) + AliasesSubtree(n.children[1])
    else {}
  }

  /** A tree of relations `tabela[alias]` under selections, projections and products, each with
      the number of operands the optimisers expect. */
  predicate RelationTree(n: Node)
    decreases n
  {
    (n.children == [] <==> EndsWith(n.op, "]"))
    && (n.children != [] ==>
          ((IsSelection(n.op) || IsProjection(n.op)) && |n.children| == 1)
          || (IsProduct(n.op) && |n.children| == 2))
    && forall k :: 0 <= k < |n.children| ==> RelationTree(n.children[k])
  }

  /** On such a tree, `_aliases_subtree` collects the alias of every leaf. */
  lemma {:induction false} AliasesOfRelationTree(n: Node)
    requires RelationTree(n) && Sound(n)
    ensures AliasesSubtree(n) == LeafAliases(n)
    decreases n
  {
    var cs := n.children;
    if cs == [] {
      assert LeafAliases(n) == {LeafAlias(n.op)};
    } else if |cs| == 1 {
      assert RelationTree(cs[0]);
      AliasesOfRelationTree(cs[0]);
      LeafAliasesOfOne(cs);
    } else {
      assert RelationTree(cs[0]) && RelationTree(cs[1]);
      AliasesOfRelationTree(cs[0]);
      AliasesOfRelationTree(cs[1]);
      LeafAliasesOfTwo(cs);
    }
  }

  lemma LeafAliasesOfOne(cs: seq<Node>)
    requires |cs| == 1
    ensures LeafAliasesOf(cs) == LeafAliases(cs[0])
  {
    assert LeafAliasesOf(cs[1..]) == {};
  }

  lemma LeafAliasesOfTwo(cs: seq<Node>)
    requires |cs| == 2
    ensures LeafAliasesOf(cs) == LeafAliases(cs[0]) + LeafAliases(cs[1])
  {
    LeafAliasesOfOne(cs[1..]);
  }

  /** No alias of a subtree holds a `[`: each is what follows the last `[` of a leaf label. */
  lemma {:induction false} AliasesBracketFree(n: Node)
    requires Sound(n)
    ensures forall a :: a in AliasesSubtree(n) ==> '[' !in a
    decreases n
  {
    if !EndsWith(n.op, "]") {
      if IsSelection(n.op) || IsProjection(n.op) {
        AliasesBracketFree(n.children[0]);
      } else if IsProduct(n.op) {
        AliasesBracketFree(n.children[0]);
        AliasesBracketFree(n.children[1]);
      }
    }
  }

  /** The leaf `T[a]` names the alias `a`. */
  lemma LeafAliasOf(t: string, a: string)
    requires '[' !in a
    ensures LeafAlias(t + "[" + a + "]") == a
  {
    var s := t + "[" + a + "]";
    assert s[..|s| - 1] == t + "[" + a && s[|s| - 1] == ']';
    assert AfterLast(s[..|s| - 1], '[') == a by {
      AfterLastOf(t, a);
    }
    assert AfterLast(s, '[') == a + "]";
  }

  lemma {:induction false} AfterLastOf(t: string, a: string)
    requires '[' !in a
    ensures AfterLast(t + "[" + a, '[') == a
    decreases |a|
  {
    var s := t + "[" + a;
    if a == [] {
      assert s[|s| - 1] == '[';
    } else {
      assert a[|a| - 1] in a;
      assert s[..|s| - 1] == t + "[" + a[..|a| - 1];
      assert '[' !in a[..|a| - 1] by {
        assert forall k :: 0 <= k < |a| - 1 ==> a[..|a| - 1][k] == a[k];
      }
      AfterLastOf(t, a[..|a| - 1]);
      assert a[..|a| - 1] + [a[|a| - 1]] == a;
    }
  }

  /** A join made by `produto_para_join` hides the aliases below it: its label `⨝ <cond>` is none
      of the labels the collector descends through. */
  lemma FusedJoinHidesAliases(cond: string, cs: seq<Node>)
    requires Sound(Node("⨝ " + cond, cs)) && !EndsWith(cond, "]")
    ensures AliasesSubtree(Node("⨝ " + cond, cs)) == {}
  {
    var op := "⨝ " + cond;
    assert !EndsWith(op, "]") by {
      if cond == [] {
        assert op[|op| - 1] == ' ';
      } else {
        assert op[|op| - 1..] == cond[|cond| - 1..];
      }
    }
    assert op[0] == '⨝' && |op| >= 2;
  }

  // ---------------------------------------------------------------------------------------------
  // push_selecoes

  /** How a pass reads the condition of a selection: by the aliases it names (`otimizador`), or by
      the `alias.attribute` tokens it holds (`teste_otimizador`, whose `_atributos` is
      `DraftOptimizer.Attributes`). */
  datatype Reading = ByAlias | ByAttribute

  /** `_atributos(expr)`: the whitespace-separated words of `expr`, once `(`, `)` and `=` are
      blanked, that hold a dot. */
  function Attributes(expr: string): (r: set<string>)
    ensures forall a :: a in r ==> '.' in a
  {
    var s := Blanked(expr);
    BlankedWords(expr);
    set i, j | 0 <= i < j <= |s| && WordAt(s, i, j) && '.' in s[i..j] :: Strip(s[i..j])
  }

  /** `expr.replace('(', ' ').replace(')', ' ').replace('=', ' ')` */
  function Blanked(expr: string): (s: string)
    ensures |s| == |expr|
  {
    seq(|expr|, k requires 0 <= k < |expr| => if expr[k] in "()=" then ' ' else expr[k])
  }

  /** Each word of the blanked text is its own strip. */
  lemma BlankedWords(expr: string)
    ensures var s := Blanked(expr);
      forall i, j | 0 <= i < j <= |s| && WordAt(s, i, j) :: Strip(s[i..j]) == s[i..j]
  {
    var s := Blanked(expr);
    forall i, j | 0 <= i < j <= |s| && WordAt(s, i, j)
      ensures Strip(s[i..j]) == s[i..j]
    {
      StripStripped(s[i..j]);
    }
  }

  /** `s[i..j]` is one of the words `str.split()` returns: a maximal run without whitespace. */
  predicate WordAt(s: string, i: nat, j: nat)
    requires i < j <= |s|
  {
    (i == 0 || IsSpace(s[i - 1])) && (j == |s| || IsSpace(s[j]))
    && forall k :: i <= k < j ==> !IsSpace(s[k])
  }

  function ConditionSet(reading: Reading, cond: string): set<string>
  {
    match reading
    case ByAlias => Aliases(cond)
    case ByAttribute => Attributes(cond)
  }

  /** What `push_selecoes(node)` returns. The children go first. A selection over one selection
      or projection trades places with it; a selection over two operands is put over the side
      that covers its condition, the left one first, and that selection is what is returned: the
      other side is dropped. */
  function PushSelections(n: Node, reading: Reading): (r: Node)
    requires Sound(n)
    ensures Sound(r) && Size(r) <= Size(n)
    decreases Size(n), 1
  {
    if n.children == [] then n
    else
      var pushed := PushChildren(n, reading);
      if !IsSelection(n.op) then pushed
      else if |pushed.children| == 1 then Swapped(pushed)
      else
        var conds := ConditionSet(reading, Strip(n.op[2..]));
        var l, r := pushed.children[0], pushed.children[1];
        SizeTwo(n);
        SizeOne(n.op, l);
        SizeOne(n.op, r);
        if conds <= AliasesSubtree(l) then PushSelections(Node(n.op, [l]), reading)
        else if conds <= AliasesSubtree(r) then PushSelections(Node(n.op, [r]), reading)
        else pushed
  }

  /** The node with every child pushed (`[push_selecoes(f) for f in node.filhos]`). */
  function PushChildren(n: Node, reading: Reading): (r: Node)
    requires Sound(n)
    ensures r.op == n.op && |r.children| == |n.children| && Sound(r) && Size(r) <= Size(n)
    decreases Size(n), 0
  {
    var ch := seq(|n.children|, k requires 0 <= k < |n.children| =>
      ChildSmaller(n, k);
      PushSelections(n.children[k], reading));
    SizeNoLarger(n.op, ch, n.children);
    Node(n.op, ch)
  }

  /** A selection over one selection or projection trades places with it: the child becomes the
      parent and the selection takes over the grandchild. Nothing is added or lost. */
  function Swapped(n: Node): (r: Node)
    requires IsSelection(n.op) && |n.children| == 1 && Sound(n)
    ensures Sound(r) && Size(r) == Size(n) && Labels(r) == Labels(n)
  {
    var c := n.children[0];
    assert n == Node(n.op, [c]) && Sound(c);
    if IsSelection(c.op) || IsProjection(c.op) then
      SizeSwap(n.op, c);
      LabelsSwap(n.op, c);
      Node(c.op, [Node(n.op, [c.children[0]])] + c.children[1..])
    else n
  }

  /** With one operand per selection, `push_selecoes` only moves nodes: the labels, with their
      multiplicities, stay the same, and every selection keeps one operand. */
  lemma {:induction false} PushSelectionsMoves(n: Node, reading: Reading)
    requires Sound(n) && UnarySelections(n)
    ensures Labels(PushSelections(n, reading)) == Labels(n)
    ensures UnarySelections(PushSelections(n, reading))
    decreases n
  {
    if n.children != [] {
      var pushed := PushChildren(n, reading);
      forall k | 0 <= k < |n.children|
        ensures Labels(pushed.children[k]) == Labels(n.children[k]) && UnarySelections(pushed.children[k])
      {
        assert pushed.children[k] == PushSelections(n.children[k], reading);
        PushSelectionsMoves(n.children[k], reading);
      }
      LabelsSame(n.op, pushed.children, n.children);
      assert pushed == Node(n.op, pushed.children) && n == Node(n.op, n.children);
      assert UnarySelections(pushed);
      if IsSelection(n.op) {
        SwappedUnary(pushed);
      }
    }
  }

  lemma SwappedUnary(n: Node)
    requires IsSelection(n.op) && |n.children| == 1 && Sound(n) && UnarySelections(n)
    ensures UnarySelections(Swapped(n))
  {
    var c := n.children[0];
    assert UnarySelections(c);
    if IsSelection(c.op) || IsProjection(c.op) {
      var r := Swapped(n);
      assert UnarySelections(Node(n.op, [c.children[0]]));
      assert forall k :: 1 <= k < |r.children| ==> r.children[k] == c.children[k];
    }
  }

  /** A node over relations alone is its own pushed children. */
  lemma PushLeaves(n: Node, reading: Reading)
    requires Sound(n) && forall k :: 0 <= k < |n.children| ==> n.children[k].children == []
    ensures PushChildren(n, reading) == n
  {
    var ch := PushChildren(n, reading).children;
    forall k | 0 <= k < |n.children|
      ensures ch[k] == n.children[k]
    {
      assert ch[k] == PushSelections(n.children[k], reading);
    }
  }

  /** A selection over a projection of a relation moves under the projection. */
  lemma SelectionUnderProjection(s: string, p: string, leaf: Node)
    requires IsSelection(s) && IsProjection(p) && leaf.children == [] && Sound(leaf)
    ensures PushSelections(Node(s, [Node(p, [leaf])]), ByAlias) == Node(p, [Node(s, [leaf])])
  {
    var inner := Node(p, [leaf]);
    assert PushSelections(inner, ByAlias) == inner by {
      PushLeaves(inner, ByAlias);
    }
    var n := Node(s, [inner]);
    assert PushChildren(n, ByAlias) == n by {
      assert PushChildren(n, ByAlias).children[0] == PushSelections(inner, ByAlias);
    }
    assert [inner][1..] == [];
  }

  /** A selection over two relations whose condition the left one covers comes back as a
      selection over the left relation alone: the right relation is lost. */
  lemma SelectionDropsRightOperand(s: string, l: Node, r: Node)
    requires IsSelection(s) && l.children == [] && r.children == [] && Sound(l) && Sound(r)
    requires Aliases(Strip(s[2..])) <= AliasesSubtree(l)
    ensures PushSelections(Node(s, [l, r]), ByAlias) == Node(s, [l])
  {
    var n := Node(s, [l, r]);
    PushLeaves(n, ByAlias);
    var m := Node(s, [l]);
    PushLeaves(m, ByAlias);
    assert PushSelections(n, ByAlias) == PushSelections(m, ByAlias);
    assert !IsSelection(l.op) && !IsProjection(l.op);
  }

  // ---------------------------------------------------------------------------------------------
  // produto_para_join

  /** What `produto_para_join(node)` returns. The children go first; then a selection over a
      product becomes a join labelled `⨝ <cond>` over the product's operands when the aliases of
      its condition meet those of both operands. */
  function ProductToJoin(n: Node): (r: Node)
    requires Sound(n)
    ensures Sound(r)
    decreases n
  {
    if n.children == [] then n
    else
      var ch := seq(|n.children|, k requires 0 <= k < |n.children| => ProductToJoin(n.children[k]));
      var kept := Node(n.op, ch);
      if IsSelection(n.op) && |ch| == 1 && ch[0].op == "X" then
        var c := ch[0];
        var cond := Strip(n.op[2..]);
        var aliases := Aliases(cond);
        if aliases * AliasesSubtree(c.children[0]) != {} && aliases * AliasesSubtree(c.children[1]) != {} then
          Node("⨝ " + cond, c.children)
        else kept
      else kept
  }

  /** Joining twice is joining once: the pass leaves its own output as it is. */
  lemma {:induction false} ProductToJoinIdempotent(n: Node)
    requires Sound(n)
    ensures ProductToJoin(ProductToJoin(n)) == ProductToJoin(n)
    decreases n
  {
    if n.children != [] {
      var ch := seq(|n.children|, k requires 0 <= k < |n.children| => ProductToJoin(n.children[k]));
      forall k | 0 <= k < |n.children|
        ensures ProductToJoin(ch[k]) == ch[k]
      {
        ProductToJoinIdempotent(n.children[k]);
      }
      var r := ProductToJoin(n);
      var ch2 := seq(|r.children|, k requires 0 <= k < |r.children| => ProductToJoin(r.children[k]));
      if r == Node(n.op, ch) {
        assert ch2 == ch;
      } else {
        var c := ch[0];
        var x := n.children[0];
        assert x.op == "X" by {
          if x.children == [] {
            assert c == x;
          }
        }
        assert c == Node("X", seq(|x.children|, k requires 0 <= k < |x.children| => ProductToJoin(x.children[k])));
        forall k | 0 <= k < |c.children|
          ensures ProductToJoin(c.children[k]) == c.children[k]
        {
          ProductToJoinIdempotent(x.children[k]);
        }
        assert r.children == c.children;
        assert ch2 == c.children;
        assert r.op[0] == '⨝';
      }
    }
  }

  /** The children of a node, each joined. */
  function JoinedChildren(n: Node): seq<Node>
    requires Sound(n)
  {
    seq(|n.children|, k requires 0 <= k < |n.children| => ProductToJoin(n.children[k]))
  }

  /** A node over two relations keeps its children. */
  lemma JoinLeaves(n: Node)
    requires Sound(n) && |n.children| == 2 && n.children[0].children == [] && n.children[1].children == []
    ensures ProductToJoin(n) == Node(n.op, n.children)
  {
    assert JoinedChildren(n) == n.children;
  }

  /** A selection over the product of two relations, whose condition names an alias of each,
      becomes their join. */
  lemma ProductBecomesJoin(n: Node)
    requires Sound(n) && IsSelection(n.op) && |n.children| == 1
    requires var x := n.children[0];
      x.op == "X" && |x.children| == 2 && x.children[0].children == [] && x.children[1].children == []
    requires var a, x := Aliases(Strip(n.op[2..])), n.children[0];
      Sound(x) && a * AliasesSubtree(x.children[0]) != {} && a * AliasesSubtree(x.children[1]) != {}
    ensures ProductToJoin(n) == Node("⨝ " + Strip(n.op[2..]), n.children[0].children)
  {
    var x := n.children[0];
    JoinLeaves(x);
    assert JoinedChildren(n) == [x];
    JoinOverProduct(n, x);
  }

  lemma JoinOverProduct(n: Node, x: Node)
    requires Sound(n) && IsSelection(n.op) && JoinedChildren(n) == [x] && x.op == "X" && Sound(x)
    requires var a := Aliases(Strip(n.op[2..]));
      a * AliasesSubtree(x.children[0]) != {} && a * AliasesSubtree(x.children[1]) != {}
    ensures ProductToJoin(n) == Node("⨝ " + Strip(n.op[2..]), x.children)
  {
  }

  // ---------------------------------------------------------------------------------------------
  // push_projecoes and otimizar

  /** What `push_projecoes(node, needed)` returns. A root projection seeds the needed attributes
      from its comma-separated list; a product or join hands the left operand the attributes
      whose alias occurs in it and the right operand the rest; other nodes pass the set on. */
  function PushProjections(n: Node, needed: Option<set<string>>): (r: Node)
    requires Sound(n)
    ensures r == n
    decreases n
  {
    if needed.None? && IsProjection(n.op) then
      assert [n.children[0]] + n.children[1..] == n.children;
      Node(n.op, [PushProjections(n.children[0], Some(Seed(n.op)))] + n.children[1..])
    else if n.children == [] || needed.None? then n
    else if IsProduct(n.op) then
      var left := OnSide(needed.value, AliasesSubtree(n.children[0]));
      assert [n.children[0], n.children[1]] + n.children[2..] == n.children;
      Node(n.op, [PushProjections(n.children[0], Some(left)), PushProjections(n.children[1], Some(needed.value - left))]
                 + n.children[2..])
    else
      assert [n.children[0]] + n.children[1..] == n.children;
      Node(n.op, [PushProjections(n.children[0], needed)] + n.children[1..])
  }

  /** The attributes a projection label lists, each stripped. */
  function Seed(op: string): set<string>
    requires |op| >= 2
  {
    set a | a in SplitOn(op[2..], ',') :: Strip(a)
  }

  /** The attributes whose alias, the part before the first dot, is one of `aliases`. */
  function OnSide(needed: set<string>, aliases: set<string>): set<string>
  {
    set a | a in needed && BeforeFirst(a, '.') in aliases
  }

  /** `otimizar(root)`: selections pushed, products joined, projections pushed. The projection
      pass changes nothing, so the result is the joined tree of the pushed selections: it can be
      indexed everywhere, and joining it again changes nothing. */
  function Optimize(root: Node): (r: Node)
    requires Sound(root)
    ensures r == ProductToJoin(PushSelections(root, ByAlias)) && Sound(r)
    ensures ProductToJoin(r) == r
  {
    ProductToJoinIdempotent(PushSelections(root, ByAlias));
    PushProjections(ProductToJoin(PushSelections(root, ByAlias)), None)
  }
}

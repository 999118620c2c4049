/**
 * `plantando_arvores/teste_otimizador`: the draft of the optimiser. Its selection pass is the
 * one of `otimizador` except that it reads a condition by its `alias.attribute` tokens and
 * compares them with the aliases of the operands; its join pass looks at the root only. With
 * dot-free aliases the comparison is between sets that cannot meet, and the two lemmas at the
 * end say what comes of it.
 */
module DraftOptimizer {
  import opened Text
  import opened QueryProcessing
  import opened NaryTree
  import opened Optimizer

  /** A single word with a dot and no parenthesis or `=` is its own only attribute. */
  lemma AttributesOfWord(w: string)
    requires w != [] && NoSpace(w) && '.' in w
    requires forall k :: 0 <= k < |w| ==> w[k] !in "()="
    ensures Attributes(w) == {w}
  {
    var s := Blanked(w);
    assert s == w;
    assert s[0..|s|] == w;
    assert WordAt(s, 0, |s|) && '.' in s[0..|s|];
    StripStripped(w);
    assert Strip(s[0..|s|]) in Attributes(w);
    forall a | a in Attributes(w)
      ensures a == w
    {
      var i, j :| 0 <= i < j <= |s| && WordAt(s, i, j) && '.' in s[i..j] && a == Strip(s[i..j]);
      assert i == 0 && j == |s|;
      assert s[0..|s|] == w;
    }
  }

  /** No alias of the subtree holds a dot, as with every leaf written `tabela[alias]`. */
  predicate DotFree(n: Node)
    requires Sound(n)
  {
    forall a :: a in AliasesSubtree(n) ==> '.' !in a
  }

  /** Tokens with a dot meet no dot-free alias. */
  lemma AttributesMissAliases(cond: string, n: Node)
    requires Sound(n) && DotFree(n)
    ensures Attributes(cond) * AliasesSubtree(n) == {}
  {
  }

  /** `produto_para_join(no)` of the draft: only the root is looked at. A selection over a
      product becomes a join over the product's operands when the attribute tokens of its
      condition meet the aliases of both operands. */
  function DraftProductToJoin(n: Node): (r: Node)
    requires Sound(n)
    ensures Sound(r)
  {
    if IsSelection(n.op) && |n.children| == 1 && n.children[0].op == "X" then
      var c := n.children[0];
      assert Sound(c);
      var cond := Strip(n.op[2..]);
      var atrs := Attributes(cond);
      if atrs * AliasesSubtree(c.children[0]) != {} && atrs * AliasesSubtree(c.children[1]) != {} then
        JoinNodeSound(cond, c.children);
        Node("⨝ " + cond, c.children)
      else n
    else n
  }

  /** `otimizar(raiz)` of the draft. */
  function DraftOptimize(root: Node): (r: Node)
    requires Sound(root)
    ensures r == DraftProductToJoin(PushSelections(root, ByAttribute)) && Sound(r)
  {
    PushProjections(DraftProductToJoin(PushSelections(root, ByAttribute)), None)
  }

  /** With dot-free aliases the draft never makes a join: a selection over a product stays. */
  lemma DraftNeverFuses(n: Node)
    requires Sound(n)
    requires IsSelection(n.op) && |n.children| == 1 && n.children[0].op == "X"
    requires Sound(n.children[0]) && DotFree(n.children[0].children[0])
    ensures DraftProductToJoin(n) == n
  {
    AttributesMissAliases(Strip(n.op[2..]), n.children[0].children[0]);
  }

  /** Over two relations with dot-free aliases, the draft moves a selection only when its
      condition has no `alias.attribute` token at all, and then always to the left operand, the
      right one being lost; otherwise the selection stays over both. */
  lemma DraftBinaryPush(s: string, l: Node, r: Node)
    requires IsSelection(s) && l.children == [] && r.children == [] && Sound(l) && Sound(r)
    requires DotFree(l) && DotFree(r)
    ensures PushSelections(Node(s, [l, r]), ByAttribute)
         == if Attributes(Strip(s[2..])) == {} then Node(s, [l]) else Node(s, [l, r])
  {
    var n := Node(s, [l, r]);
    var atrs := Attributes(Strip(s[2..]));
    PushLeaves(n, ByAttribute);
    if atrs == {} {
      var m := Node(s, [l]);
      PushLeaves(m, ByAttribute);
      assert PushSelections(n, ByAttribute) == PushSelections(m, ByAttribute);
      assert !IsSelection(l.op) && !IsProjection(l.op);
    } else {
      var a :| a in atrs;
      assert a !in AliasesSubtree(l) && a !in AliasesSubtree(r);
    }
  }
}

/**
 * The binary relational-algebra tree of the second tree builder and its printer: a node holds its
 * text (`𝛔[c]`, `𝝿[a]`, `⨝[c]`, `X` or a table such as `Cliente[C]`) and an optional left and
 * right child; the printer turns a tree back into indented algebra text, one operand per line,
 * and folds stacked selections into one.
 */
module BinaryTree {
  import opened Text

  /** The value a node stands for: its text and its two optional subtrees. */
  datatype BTree = Nil | Node(content: string, left: BTree, right: BTree)

  function Size(t: BTree): nat
  {
    if t.Nil? then 0 else 1 + Size(t.left) + Size(t.right)
  }

  /** A node of the tree. Its fields are set after construction, as the builder does. */
  class TreeNode {
    var content: string
    var left: TreeNode?
    var right: TreeNode?
    ghost var Repr: set<object>
    ghost var Model: BTree

    /** The node and its children form a tree whose value is `Model`. */
    ghost predicate Valid()
      reads this, Repr
      decreases Repr
    {
      this in Repr && Model.Node? && Model.content == content
      && (left == null ==> Model.left == Nil)
      && (left != null ==>
            left in Repr && left.Repr <= Repr && this !in left.Repr && left.Valid() && Model.left == left.Model)
      && (right == null ==> Model.right == Nil)
      && (right != null ==>
            right in Repr && right.Repr <= Repr && this !in right.Repr && right.Valid() && Model.right == right.Model)
    }

    /** `NoArvore(conteudo)`: the given text and no children. */
    constructor (content: string)
      ensures Valid() && Repr == {this}
      ensures Model == Node(content, Nil, Nil)
    {
      this.content := content;
      left := null;
      right := null;
      Repr := {this};
      Model := Node(content, Nil, Nil);
    }

    /** `no.filho_esquerda = child` */
    method SetLeft(child: TreeNode)
      requires Valid() && child.Valid() && this !in child.Repr
      modifies this
      ensures Valid() && Repr == old(Repr) + child.Repr
      ensures Model == Node(old(Model).content, child.Model, old(Model).right)
    {
      left := child;
      Repr := Repr + child.Repr;
      Model := Node(content, child.Model, Model.right);
    }

    /** `no.filho_direita = child` */
    method SetRight(child: TreeNode)
      requires Valid() && child.Valid() && this !in child.Repr
      modifies this
      ensures Valid() && Repr == old(Repr) + child.Repr
      ensures Model == Node(old(Model).content, old(Model).left, child.Model)
    {
      right := child;
      Repr := Repr + child.Repr;
      Model := Node(content, Model.left, child.Model);
    }
  }

  /** The value of a possibly missing node. */
  ghost function ModelOf(node: TreeNode?): BTree
    reads node
  {
    if node == null then Nil else node.Model
  }

  // ---------------------------------------------------------------------------------------------
  // What the printer writes

  /** `"   " * level` */
  function Indent(level: nat): (r: string)
    ensures |r| == 3 * level && AllSpace(r)
  {
    if level == 0 then "" else "   " + Indent(level - 1)
  }

  /** `_is_select` on a node's text. */
  predicate IsSelect(content: string) { StartsWith(content, "𝛔[") }

  /** `_is_join` */
  predicate IsJoin(content: string) { StartsWith(content, "⨝[") }

  /** `_is_produto_cartesiano`: the stripped text is exactly `X`. */
  predicate IsProduct(content: string) { Strip(content) == "X" }

  predicate IsSelectTree(t: BTree) { t.Node? && IsSelect(t.content) }

  /** `_extrair_condicao`: `conteudo[2:-1]`, empty when there is nothing between. */
  function Condition(content: string): (r: string)
    ensures |content| >= 3 ==> r == content[2..|content| - 1]
    ensures |content| < 3 ==> r == []
  {
    if |content| >= 3 then content[2..|content| - 1] else []
  }

  /** The condition of `𝛔[c]` is `c`. */
  lemma ConditionOfSelect(c: string)
    ensures Condition("𝛔[" + c + "]") == c
  {
    var s := "𝛔[" + c + "]";
    assert s[2..|s| - 1] == c;
  }

  /** `(cond1) ^ (cond2)`, the condition of two stacked selections printed as one. */
  function Conjoined(c1: string, c2: string): string
  {
    "(" + c1 + ") ^ (" + c2 + ")"
  }

  /** The text of an optional child one level deeper, nothing when it is missing. */
  function Optional(t: BTree, level: nat): Option<string>
    decreases Size(t), 2
  {
    if t.Nil? then Some("") else Render(t, level)
  }

  /** Three rendered parts around a node's own text; `None` when either part failed. */
  function Wrap(open: string, a: Option<string>, mid: string, b: Option<string>, close: string): (r: Option<string>)
    ensures r.Some? <==> a.Some? && b.Some?
  {
    if a.Some? && b.Some? then Some(open + a.value + mid + b.value + close) else None
  }

  /**
   * `_percorrer(no, nivel)`. `None` stands for the `AttributeError` the source raises when it is
   * asked to print a missing node: a join or a product with a child missing.
   */
  function Render(t: BTree, level: nat): Option<string>
    decreases Size(t), 1
  {
    match t
    case Nil => None
    case Node(c, l, r) =>
      var ind := Indent(level);
      if l.Nil? && r.Nil? then Some(ind + c + "\n")
      else if IsSelect(c) && IsSelectTree(l) then Fold(c, l, level)
      else if IsJoin(c) then Binary(c, l, r, level)
      else if IsProduct(c) then Binary("X", l, r, level)
      else Wrap(ind + c + "(\n", Optional(l, level + 1), "", Optional(r, level + 1), ind + ")\n")
  }

  /** `_renderizar_join` and `_renderizar_produto_cartesiano`: both operands one level deeper, in
      parentheses, around the operator text. */
  function Binary(op: string, l: BTree, r: BTree, level: nat): Option<string>
    decreases Size(l) + Size(r) + 1, 0
  {
    var ind := Indent(level);
    Wrap(ind + "(\n", Render(l, level + 1), ind + ") " + op + " (\n", Render(r, level + 1), ind + ")\n")
  }

  /**
   * `_combinar_selects`: the selection `outer` over the selection `inner` prints as one selection
   * whose condition joins both; when a third selection follows, a new node carrying the joined
   * condition is printed in their place, so that the whole chain folds. The right child of the
   * outer selection is not printed.
   */
  function Fold(outer: string, inner: BTree, level: nat): Option<string>
    requires inner.Node?
    decreases Size(inner) + 1, 0
  {
    var joined := Conjoined(Condition(outer), Condition(inner.content));
    var next := inner.left;
    var ind := Indent(level);
    if IsSelectTree(next) then
      assert Size(Node("𝛔[" + joined + "]", next, Nil)) < Size(inner) + 1;
      Render(Node("𝛔[" + joined + "]", next, Nil), level)
    else Wrap(ind + "𝛔[" + joined + "](\n", Optional(next, level + 1), "", Optional(inner.right, level + 1), ind + ")\n")
  }

  /** The tree. `root` is null for an empty tree. */
  class Tree {
    var root: TreeNode?
    ghost var Repr: set<object>

    ghost predicate Valid()
      reads this, Repr
    {
      this in Repr && (root != null ==> root in Repr && root.Repr <= Repr && this !in root.Repr && root.Valid())
    }

    ghost function Model(): BTree
      reads this, root
    {
      ModelOf(root)
    }

    /** `Arvore()`: no root. */
    constructor ()
      ensures Valid() && fresh(Repr) && root == null && Model() == Nil
    {
      root := null;
      Repr := {this};
    }

    /** `arvore.raiz = node` */
    method SetRoot(node: TreeNode)
      requires Valid() && node.Valid() && this !in node.Repr
      modifies this
      ensures Valid() && root == node && Repr == old(Repr) + node.Repr
      ensures Model() == node.Model
    {
      root := node;
      Repr := Repr + node.Repr;
    }

    /** `reconstruir_algebra_relacional`: nothing for an empty tree, otherwise the root printed at
        level 0. */
    method Reconstruct() returns (r: Reconstruction)
      requires Valid()
      ensures root == null ==> r == NoRoot
      ensures root != null && Render(Model(), 0).Some? ==> r == Printed(Render(Model(), 0).value)
      ensures root != null && Render(Model(), 0).None? ==> r == MissingChild
    {
      if root == null {
        return NoRoot;
      }
      var text := Traverse(root, 0);
      r := if text.Some? then Printed(text.value) else MissingChild;
    }

    /** `_percorrer`, walking the nodes. */
    method Traverse(node: TreeNode?, level: nat) returns (r: Option<string>)
      requires node != null ==> node.Valid()
      ensures r == Render(ModelOf(node), level)
      decreases Size(ModelOf(node)), 1
    {
      if node == null {
        return None;
      }
      var ind := Indent(level);
      if node.left == null && node.right == null {
        return Some(ind + node.content + "\n");
      }
      assert node.left != null ==> node.left.Valid() && node.Model.left.content == node.left.content;
      assert node.right != null ==> node.right.Valid();
      if IsSelect(node.content) && node.left != null && IsSelect(node.left.content) {
        r := CombineSelects(node, level);
        return;
      }
      if IsJoin(node.content) {
        r := RenderBinary(node, node.content, level);
        return;
      }
      if IsProduct(node.content) {
        r := RenderBinary(node, "X", level);
        return;
      }
      var expression := ind + node.content + "(\n";
      var a := Some("");
      if node.left != null {
        a := Traverse(node.left, level + 1);
      }
      var b := Some("");
      if node.right != null {
        b := Traverse(node.right, level + 1);
      }
      r := Wrap(expression, a, "", b, ind + ")\n");
    }

    /** `_renderizar_join` and `_renderizar_produto_cartesiano`: the two operands in parentheses
        around the operator text. */
    method RenderBinary(node: TreeNode, op: string, level: nat) returns (r: Option<string>)
      requires node.Valid() && (node.left != null || node.right != null)
      ensures r == Binary(op, node.Model.left, node.Model.right, level)
      decreases Size(node.Model), 0
    {
      var ind := Indent(level);
      var a := Traverse(node.left, level + 1);
      var b := Traverse(node.right, level + 1);
      r := Wrap(ind + "(\n", a, ind + ") " + op + " (\n", b, ind + ")\n");
    }

    /** `_combinar_selects`, which builds a node for the joined condition when the chain goes on. */
    method CombineSelects(node: TreeNode, level: nat) returns (r: Option<string>)
      requires node.Valid() && node.left != null && node.left.Valid()
      ensures r == Fold(node.content, node.Model.left, level)
      decreases Size(node.Model), 0
    {
      var ind := Indent(level);
      var cond1 := Condition(node.content);
      var child := node.left;
      var cond2 := Condition(child.content);
      var joined := Conjoined(cond1, cond2);
      var next := child.left;
      assert child.Model == node.Model.left && ModelOf(next) == child.Model.left;
      assert Size(ModelOf(next)) < Size(child.Model) < Size(node.Model);
      assert Size(ModelOf(child.right)) < Size(child.Model);
      if next != null && IsSelect(next.content) {
        r := TraverseJoined(joined, next, level);
        return;
      }
      var a := Some("");
      if next != null {
        a := Traverse(next, level + 1);
      }
      var b := Some("");
      if child.right != null {
        b := Traverse(child.right, level + 1);
      }
      r := Wrap(ind + "𝛔[" + joined + "](\n", a, "", b, ind + ")\n");
    }

    /** The node `_combinar_selects` builds when a third selection follows: the joined condition
        over the next selection, printed at the same level. */
    method TraverseJoined(joined: string, next: TreeNode, level: nat) returns (r: Option<string>)
      requires next.Valid()
      ensures r == Render(Node("𝛔[" + joined + "]", next.Model, Nil), level)
      decreases Size(next.Model) + 1, 2
    {
      var combined := new TreeNode("𝛔[" + joined + "]");
      combined.SetLeft(next);
      assert ModelOf(combined) == Node("𝛔[" + joined + "]", next.Model, Nil);
      assert Size(ModelOf(combined)) == Size(next.Model) + 1;
      r := Traverse(combined, level);
    }
  }

  /** What `reconstruir_algebra_relacional` gives: `None` for an empty tree, the text, or the
      error raised on a missing operand. */
  datatype Reconstruction = NoRoot | Printed(text: string) | MissingChild
}

/**
 * The builder of the binary tree: a recursive descent over relational-algebra text written with
 * `𝝿[attrs](e)`, `𝛔[cond](e)`, `(l) ⨝[cond] (r)` and `(l) X (r)`, whose operands are found by
 * counting parentheses.
 */
module TreeBuilder {
  import opened Text
  import opened Parens
  import opened BinaryTree

  /** `eh_operador_unario` */
  predicate IsUnaryOperator(token: string) { StartsWith(token, "𝛔[") || StartsWith(token, "𝝿[") }

  /** `eh_operador_binario` */
  predicate IsBinaryOperator(token: string) { StartsWith(token, "⨝[") || token == "X" }

  /** `any(op in expr for op in ("𝝿", "𝛔", "⨝", "X"))` */
  predicate HasOperator(s: string) { '𝝿' in s || '𝛔' in s || '⨝' in s || 'X' in s }

  /** `s[i:]`, empty when `i` is past the end. */
  function Drop(s: string, i: nat): (r: string)
    ensures |r| <= |s| && (i <= |s| ==> r == s[i..])
  {
    if i <= |s| then s[i..] else []
  }

  /** Where `extrair_subexpressao(expr, start)` stops: at the `)` that brings the count started at
      `start` back to zero, or at the end of the text when none does. */
  function CloseOf(expr: string, start: nat): (end: nat)
    ensures start < |expr| ==> start < end <= |expr|
  {
    if start + 1 <= |expr| then FirstZero(expr, start + 1, 1) else start + 1
  }

  /** What `extrair_subexpressao(expr, start)` returns as text: everything after `start` up to
      that closing parenthesis. */
  function Between(expr: string, start: nat): (r: string)
    ensures start < |expr| ==> |r| < |expr| - start
  {
    if start + 1 <= |expr| then expr[start + 1..CloseOf(expr, start)] else []
  }

  /** The closing index is the matching `)`: the count stays above zero up to it and reaches zero
      there; when it never does, the text runs to the end. */
  lemma CloseOfMatches(expr: string, start: nat)
    requires start < |expr|
    ensures CloseOf(expr, start) < |expr| ==>
      expr[CloseOf(expr, start)] == ')' && Balance(expr[start + 1..CloseOf(expr, start) + 1]) == -1
    ensures forall k :: start < k <= CloseOf(expr, start) ==> StillOpen(expr, start, k)
  {
    FirstZeroSpec(expr, start + 1, 1);
    FirstZeroPositive(expr, start + 1, 1);
  }

  /** Between `start` and `k` more parentheses have been opened than closed, counting the one at
      `start`. */
  predicate StillOpen(expr: string, start: nat, k: nat)
    requires start < k <= |expr|
  {
    1 + Balance(expr[start + 1..k]) > 0
  }

  /** A parenthesised balanced text is extracted whole. */
  lemma BetweenBalanced(b: string, t: string)
    requires Balanced(b)
    ensures CloseOf("(" + b + ")" + t, 0) == |b| + 1
    ensures Between("(" + b + ")" + t, 0) == b
  {
    var s := "(" + b + ")" + t;
    assert s[1..1 + |b|] == b;
    FirstZeroSkipsBalanced(s, 1, b, 1);
    assert s[|b| + 1] == ')';
  }

  /** `expr.find("]") + 1`: the index just past the first `]`, 0 when there is none. */
  function OperatorEnd(s: string): (k: nat)
    ensures k <= |s|
  {
    FindChar(s, ']', 0) + 1
  }

  /** Why `_construir_no` gives up. */
  datatype BuildError =
    | UnknownOperator(rest: string)     // neither `⨝[` nor `X` after the left operand
    | InvalidRight(rest: string)        // the right operand does not start with `(`
    | InvalidExpression(expr: string)   // no shape applies

  /** The text after a unary operator, stripped. */
  function UnaryRest(expr: string): string
  {
    Strip(expr[OperatorEnd(expr)..])
  }

  /** `_construir_no(expr)`, as a value: the input is stripped first. */
  function TreeOf(expr0: string): Result<BTree, BuildError>
    decreases |expr0|, 2
  {
    NodeOf(Strip(expr0))
  }

  /** The shapes `_construir_no` tells apart, tried in its order on stripped text. */
  function NodeOf(expr: string): Result<BTree, BuildError>
    decreases |expr|, 1
  {
    if !HasOperator(expr) then Ok(Node(expr, Nil, Nil))
    else if IsUnaryOperator(expr) && StartsWith(UnaryRest(expr), "(") then UnaryOf(expr)
    else if StartsWith(expr, "(") then BinaryOf(expr)
    else Err(InvalidExpression(expr))
  }

  /** `𝝿[..](e)` or `𝛔[..](e)`: the operator up to its first `]` over the tree of `e`. */
  function UnaryOf(expr: string): Result<BTree, BuildError>
    requires StartsWith(UnaryRest(expr), "(")
    decreases |expr|, 0
  {
    match TreeOf(Between(UnaryRest(expr), 0))
    case Err(e) => Err(e)
    case Ok(t) => Ok(Node(expr[..OperatorEnd(expr)], t, Nil))
  }

  /** The text after the left operand of a binary operator, stripped. */
  function AfterLeft(expr: string): (r: string)
    requires expr != []
    ensures |r| < |expr|
  {
    Strip(Drop(expr, CloseOf(expr, 0) + 1))
  }

  /** The operator text the builder keeps: `⨝[..]` up to its first `]`, or `X`. */
  function BinaryLabel(rest: string): string
  {
    if IsJoin(rest) then rest[..OperatorEnd(rest)] else "X"
  }

  /** The stripped text after the operator. */
  function RightText(rest: string): (r: string)
    ensures |r| <= |rest|
  {
    if IsJoin(rest) then Strip(rest[OperatorEnd(rest)..]) else Strip(Drop(rest, 1))
  }

  /** `(l) ⨝[c] (r)` or `(l) X (r)`: the operator over the trees of `l` and `r`, the left one
      built first. */
  function BinaryOf(expr: string): Result<BTree, BuildError>
    requires expr != []
    decreases |expr|, 0
  {
    var rest := AfterLeft(expr);
    if !IsJoin(rest) && !StartsWith(rest, "X") then Err(UnknownOperator(rest))
    else if !StartsWith(RightText(rest), "(") then Err(InvalidRight(RightText(rest)))
    else Pair(BinaryLabel(rest), TreeOf(Between(expr, 0)), TreeOf(Between(RightText(rest), 0)))
  }

  /** A binary node over two built operands; the first error, left before right, wins. */
  function Pair(op: string, left: Result<BTree, BuildError>, right: Result<BTree, BuildError>): Result<BTree, BuildError>
  {
    match left
    case Err(e) => Err(e)
    case Ok(l) =>
      match right
      case Err(e) => Err(e)
      case Ok(r) => Ok(Node(op, l, r))
  }

  // ---------------------------------------------------------------------------------------------
  // The builder as the source runs it

  /** `extrair_subexpressao(expr, start)`: the counting loop. */
  method ExtractSub(expr: string, start: nat) returns (sub: string, end: nat)
    ensures end == CloseOf(expr, start) && sub == Between(expr, start)
  {
    var count := 1;
    end := start + 1;
    ghost var target := CloseOf(expr, start);
    while end < |expr|
      invariant start + 1 <= end <= |expr| ==> FirstZero(expr, end, count) == target
      invariant start + 1 <= |expr| ==> end <= |expr|
      invariant end == start + 1 || end <= |expr|
      decreases |expr| - end
    {
      if expr[end] == '(' {
        count := count + 1;
      } else if expr[end] == ')' {
        count := count - 1;
        if count == 0 {
          assert FirstZero(expr, end, count + 1) == end;
          break;
        }
      }
      end := end + 1;
    }
    sub := if start + 1 <= |expr| then expr[start + 1..end] else [];
  }

  /** `_construir_no(expr)`, allocating the nodes and linking them. */
  method BuildNode(expr0: string) returns (res: Result<TreeNode, BuildError>)
    ensures TreeOf(expr0).Err? ==> res == Err(TreeOf(expr0).error)
    ensures TreeOf(expr0).Ok? ==>
      res.Ok? && res.value.Valid() && fresh(res.value.Repr) && res.value.Model == TreeOf(expr0).value
    decreases |expr0|, 2
  {
    var expr := Strip(expr0);
    if !HasOperator(expr) {
      var leaf := new TreeNode(expr);
      return Ok(leaf);
    }
    assert TreeOf(expr0) == NodeOf(expr);
    if IsUnaryOperator(expr) {
      var k := FindChar(expr, ']', 0) + 1;
      var rest := Strip(expr[k..]);
      assert rest == UnaryRest(expr);
      if StartsWith(rest, "(") {
        res := BuildUnary(expr);
        return;
      }
    }
    if StartsWith(expr, "(") {
      res := BuildBinary(expr);
      return;
    }
    return Err(InvalidExpression(expr));
  }

  /** The unary branch of `_construir_no`. */
  method BuildUnary(expr: string) returns (res: Result<TreeNode, BuildError>)
    requires StartsWith(UnaryRest(expr), "(")
    ensures UnaryOf(expr).Err? ==> res == Err(UnaryOf(expr).error)
    ensures UnaryOf(expr).Ok? ==>
      res.Ok? && res.value.Valid() && fresh(res.value.Repr) && res.value.Model == UnaryOf(expr).value
    decreases |expr|, 1
  {
    var operator := expr[..OperatorEnd(expr)];
    var sub, _ := ExtractSub(UnaryRest(expr), 0);
    var child := BuildNode(sub);
    if child.Err? {
      return Err(child.error);
    }
    var node := LinkLeft(operator, child.value);
    return Ok(node);
  }

  /** A fresh node for `operator` with the built operand as its left child and no right child. */
  method LinkLeft(operator: string, l: TreeNode) returns (node: TreeNode)
    requires l.Valid()
    ensures node.Valid() && fresh(node) && node.Repr == {node} + l.Repr
    ensures node.Model == Node(operator, l.Model, Nil)
  {
    node := new TreeNode(operator);
    node.SetLeft(l);
  }

  /** The binary branch of `_construir_no`. */
  method BuildBinary(expr: string) returns (res: Result<TreeNode, BuildError>)
    requires expr != []
    ensures BinaryOf(expr).Err? ==> res == Err(BinaryOf(expr).error)
    ensures BinaryOf(expr).Ok? ==>
      res.Ok? && res.value.Valid() && fresh(res.value.Repr) && res.value.Model == BinaryOf(expr).value
    decreases |expr|, 1
  {
    var left, endLeft := ExtractSub(expr, 0);
    var rest := Strip(Drop(expr, endLeft + 1));
    assert rest == AfterLeft(expr);
    var operator, restRight;
    if IsJoin(rest) {
      var k := FindChar(rest, ']', 0) + 1;
      operator := rest[..k];
      restRight := Strip(rest[k..]);
    } else if StartsWith(rest, "X") {
      operator := "X";
      restRight := Strip(rest[1..]);
    } else {
      return Err(UnknownOperator(rest));
    }
    assert operator == BinaryLabel(rest) && restRight == RightText(rest);
    if !StartsWith(restRight, "(") {
      return Err(InvalidRight(restRight));
    }
    var right, _ := ExtractSub(restRight, 0);
    res := BuildPair(operator, left, right, |expr|);
  }

  /** The node of a binary operator, its left operand built and linked first, then its right. */
  method BuildPair(operator: string, left: string, right: string, ghost bound: nat) returns (res: Result<TreeNode, BuildError>)
    requires |left| < bound && |right| < bound
    ensures Pair(operator, TreeOf(left), TreeOf(right)).Err? ==> res == Err(Pair(operator, TreeOf(left), TreeOf(right)).error)
    ensures Pair(operator, TreeOf(left), TreeOf(right)).Ok? ==>
      res.Ok? && res.value.Valid() && fresh(res.value.Repr) && res.value.Model == Pair(operator, TreeOf(left), TreeOf(right)).value
    decreases bound, 0
  {
    var l := BuildNode(left);
    if l.Err? {
      return Err(l.error);
    }
    var r := BuildNode(right);
    if r.Err? {
      return Err(r.error);
    }
    var node := Link(operator, l.value, r.value);
    return Ok(node);
  }

  /** A fresh node for `operator` with the two built operands as its children. */
  method Link(operator: string, l: TreeNode, r: TreeNode) returns (node: TreeNode)
    requires l.Valid() && r.Valid()
    ensures node.Valid() && fresh(node) && node.Repr == {node} + l.Repr + r.Repr
    ensures node.Model == Node(operator, l.Model, r.Model)
  {
    node := new TreeNode(operator);
    node.SetLeft(l);
    node.SetRight(r);
  }

  /** `construir_arvore(algebra)`: a tree whose root is built from the stripped text. */
  method BuildTree(algebra: string) returns (res: Result<Tree, BuildError>)
    ensures TreeOf(algebra).Err? ==> res == Err(TreeOf(algebra).error)
    ensures TreeOf(algebra).Ok? ==>
      res.Ok? && res.value.Valid() && fresh(res.value.Repr) && res.value.Model() == TreeOf(algebra).value
  {
    var tree := new Tree();
    StripTwice(algebra);
    var root := BuildNode(Strip(algebra));
    if root.Err? {
      return Err(root.error);
    }
    tree.SetRoot(root.value);
    return Ok(tree);
  }

  /** The builder strips its input first, so stripping before calling it changes nothing. */
  lemma StripTwice(s: string)
    ensures TreeOf(Strip(s)) == TreeOf(s)
  {
    StripStripped(Strip(s));
  }
}

/**
 * What the builder and the printer of the binary tree promise together: every tree the builder
 * returns can be printed, and a tree in the printer's own layout is read back unchanged.
 */
module TreeProperties {
  import opened Text
  import opened Parens
  import opened BinaryTree
  import opened TreeBuilder

  // ---------------------------------------------------------------------------------------------
  // The shapes the builder produces

  /** A leaf holds text with no operator symbol, a unary operator one operand on the left, a
      binary operator two operands. */
  predicate WellBuilt(t: BTree)
  {
    match t
    case Nil => false
    case Node(c, l, r) =>
      (l.Nil? && r.Nil? && !HasOperator(c))
      || (IsUnaryOperator(c) && r.Nil? && WellBuilt(l))
      || (IsBinaryOperator(c) && WellBuilt(l) && WellBuilt(r))
  }

  /** A unary operator's text is neither a join nor a product, and it holds an operator symbol. */
  lemma UnaryNotBinary(c: string)
    requires IsUnaryOperator(c)
    ensures !IsJoin(c) && !IsProduct(c) && !IsBinaryOperator(c) && HasOperator(c)
  {
    assert c[0] == '𝛔' || c[0] == '𝝿';
    assert Strip(c) != [] ==> Strip(c)[0] == c[0];
  }

  /** The operator text of the unary branch keeps its `𝛔[` or `𝝿[`: when the text holds no `]`
      the rest would start with the operator symbol, not with `(`. */
  lemma UnaryLabel(expr: string)
    requires IsUnaryOperator(expr) && StartsWith(UnaryRest(expr), "(")
    ensures IsUnaryOperator(expr[..OperatorEnd(expr)])
  {
    assert expr[..OperatorEnd(expr)][..2] == expr[..2];
  }

  /** The same for the binary branch: a `⨝` with no `]` leaves no `(` to read the right operand. */
  lemma BinaryLabelKept(rest: string)
    requires (IsJoin(rest) || StartsWith(rest, "X")) && StartsWith(RightText(rest), "(")
    ensures IsBinaryOperator(BinaryLabel(rest))
  {
    if IsJoin(rest) {
      assert BinaryLabel(rest)[..2] == rest[..2];
    }
  }

  /** Every tree the builder returns is well built. */
  lemma {:induction false} BuildWellBuilt(expr0: string)
    ensures TreeOf(expr0).Ok? ==> WellBuilt(TreeOf(expr0).value)
    decreases |expr0|, 2
  {
    NodeWellBuilt(Strip(expr0));
  }

  lemma {:induction false} NodeWellBuilt(expr: string)
    ensures NodeOf(expr).Ok? ==> WellBuilt(NodeOf(expr).value)
    decreases |expr|, 1
  {
    if !HasOperator(expr) {
      assert NodeOf(expr) == Ok(Node(expr, Nil, Nil));
    } else if IsUnaryOperator(expr) && StartsWith(UnaryRest(expr), "(") {
      UnaryWellBuilt(expr);
    } else if StartsWith(expr, "(") {
      BinaryWellBuilt(expr);
    }
  }

  lemma {:induction false} UnaryWellBuilt(expr: string)
    requires IsUnaryOperator(expr) && StartsWith(UnaryRest(expr), "(")
    ensures UnaryOf(expr).Ok? ==> WellBuilt(UnaryOf(expr).value)
    decreases |expr|, 0
  {
    BuildWellBuilt(Between(UnaryRest(expr), 0));
    UnaryLabel(expr);
  }

  lemma {:induction false} BinaryWellBuilt(expr: string)
    requires expr != []
    ensures BinaryOf(expr).Ok? ==> WellBuilt(BinaryOf(expr).value)
    decreases |expr|, 0
  {
    var rest := AfterLeft(expr);
    if (IsJoin(rest) || StartsWith(rest, "X")) && StartsWith(RightText(rest), "(") {
      BuildWellBuilt(Between(expr, 0));
      BuildWellBuilt(Between(RightText(rest), 0));
      BinaryLabelKept(rest);
    }
  }

  /** A well-built tree prints: the printer never meets a join or a product with a child
      missing. */
  lemma {:induction false} RenderWellBuilt(t: BTree, level: nat)
    requires WellBuilt(t)
    ensures Render(t, level).Some?
    decreases Size(t), 1
  {
    var c, l, r := t.content, t.left, t.right;
    if l.Nil? && r.Nil? {
    } else if IsSelect(c) && IsSelectTree(l) {
      UnaryNotBinary(l.content);
      FoldWellBuilt(c, l, level);
    } else if IsJoin(c) || IsProduct(c) {
      if IsUnaryOperator(c) {
        UnaryNotBinary(c);
        assert false;
      }
      RenderWellBuilt(l, level + 1);
      RenderWellBuilt(r, level + 1);
    } else {
      RenderWellBuilt(l, level + 1);
    }
  }

  /** A chain of selections folds into one printed selection whose operand prints. */
  lemma {:induction false} FoldWellBuilt(outer: string, inner: BTree, level: nat)
    requires inner.Node? && WellBuilt(inner) && IsUnaryOperator(inner.content)
    ensures Fold(outer, inner, level).Some?
    decreases Size(inner) + 1, 0
  {
    UnaryNotBinary(inner.content);
    var joined := Conjoined(Condition(outer), Condition(inner.content));
    var next := inner.left;
    if IsSelectTree(next) {
      RenderWellBuilt(Node("𝛔[" + joined + "]", next, Nil), level);
    } else {
      RenderWellBuilt(next, level + 1);
    }
  }

  /** Whatever the builder accepts, `reconstruir_algebra_relacional` prints without failing. */
  lemma BuiltTreesPrint(algebra: string)
    ensures TreeOf(algebra).Ok? ==> Render(TreeOf(algebra).value, 0).Some?
  {
    BuildWellBuilt(algebra);
    if TreeOf(algebra).Ok? {
      RenderWellBuilt(TreeOf(algebra).value, 0);
    }
  }

  // ---------------------------------------------------------------------------------------------
  // The printer's layout read back

  /** Operator text `p[cond]` whose condition is balanced and holds no `]`: its first `]` is its
      last character. */
  predicate Bracketed(c: string)
  {
    |c| >= 3 && c[|c| - 1] == ']' && ']' !in Condition(c) && Balanced(Condition(c))
  }

  /** A leaf the builder reads back as it is. */
  predicate PlainLeaf(c: string)
  {
    c != [] && Stripped(c) && !HasOperator(c) && '(' !in c && ')' !in c
  }

  /** Trees that print in full and read back unchanged: leaves without parentheses, operator texts
      whose condition is balanced and free of `]`, and no selection directly over a selection
      (the printer folds those into one). */
  predicate Canonical(t: BTree)
  {
    match t
    case Nil => false
    case Node(c, l, r) =>
      if l.Nil? && r.Nil? then PlainLeaf(c)
      else if r.Nil? then
        IsUnaryOperator(c) && Bracketed(c) && !(IsSelect(c) && IsSelectTree(l)) && Canonical(l)
      else (c == "X" || (IsJoin(c) && Bracketed(c))) && Canonical(l) && Canonical(r)
  }

  /** The printed text of a node at `level`, without its indentation and final line break. */
  function Body(t: BTree, level: nat): string
    decreases t, 0
  {
    match t
    case Nil => []
    case Node(c, l, r) =>
      if l.Nil? && r.Nil? then c
      else if r.Nil? then c + ("(" + Operand(l, level) + ")")
      else "(" + Operand(l, level) + ")" + (" " + c + " ") + ("(" + Operand(r, level) + ")")
  }

  /** An operand as the printer writes it between `(` and `)`: a line break, the operand's own
      line one level deeper, and the indentation of the closing parenthesis. */
  function Operand(t: BTree, level: nat): string
    decreases t, 2
  {
    "\n" + Line(t, level + 1) + Indent(level)
  }

  /** One printed node: indentation, text, line break. */
  function Line(t: BTree, level: nat): string
    decreases t, 1
  {
    Indent(level) + Body(t, level) + "\n"
  }

  /** A canonical tree prints as its `Line`. */
  lemma {:induction false} RenderCanonical(t: BTree, level: nat)
    requires Canonical(t)
    ensures Render(t, level) == Some(Line(t, level))
    decreases t, 1
  {
    var c, l, r := t.content, t.left, t.right;
    var ind := Indent(level);
    if l.Nil? && r.Nil? {
    } else if r.Nil? {
      RenderCanonical(l, level + 1);
      RenderUnaryCanonical(t, level);
    } else {
      RenderCanonical(l, level + 1);
      RenderCanonical(r, level + 1);
      RenderBinaryCanonical(t, level);
    }
  }

  /** The projection or selection case: the generic layout with no right operand. */
  lemma RenderUnaryCanonical(t: BTree, level: nat)
    requires t.Node? && t.left.Node? && t.right.Nil? && Canonical(t)
    requires Render(t.left, level + 1) == Some(Line(t.left, level + 1))
    ensures Render(t, level) == Some(Line(t, level))
    decreases t, 0
  {
    var c := t.content;
    var ind := Indent(level);
    var a := Line(t.left, level + 1);
    UnaryNotBinary(c);
    assert !(IsSelect(c) && IsSelectTree(t.left));
    assert Optional(t.left, level + 1) == Some(a) && Optional(Nil, level + 1) == Some("");
    assert Render(t, level) == Wrap(ind + c + "(\n", Some(a), "", Some(""), ind + ")\n");
    RegroupUnary(ind, c, a);
    UnaryLine(t, level);
  }

  lemma UnaryLine(t: BTree, level: nat)
    requires t.Node? && t.left.Node? && t.right.Nil?
    ensures Line(t, level)
      == Indent(level) + (t.content + ("(" + ("\n" + Line(t.left, level + 1) + Indent(level)) + ")")) + "\n"
  {
    assert Body(t, level) == t.content + ("(" + Operand(t.left, level) + ")");
  }

  lemma BinaryLine(t: BTree, level: nat)
    requires t.Node? && t.left.Node? && t.right.Node?
    ensures Line(t, level)
      == Indent(level) + ("(" + ("\n" + Line(t.left, level + 1) + Indent(level)) + ")" + (" " + t.content + " ")
         + ("(" + ("\n" + Line(t.right, level + 1) + Indent(level)) + ")")) + "\n"
  {
    assert Body(t, level)
      == "(" + Operand(t.left, level) + ")" + (" " + t.content + " ") + ("(" + Operand(t.right, level) + ")");
  }

  lemma RegroupUnary(ind: string, c: string, a: string)
    ensures ind + c + "(\n" + a + "" + "" + (ind + ")\n") == ind + (c + ("(" + ("\n" + a + ind) + ")")) + "\n"
  {
  }

  /** The join or product case: the printed text, regrouped, is the node's `Line`. */
  lemma RenderBinaryCanonical(t: BTree, level: nat)
    requires t.Node? && t.left.Node? && t.right.Node? && Canonical(t)
    requires Render(t.left, level + 1) == Some(Line(t.left, level + 1))
    requires Render(t.right, level + 1) == Some(Line(t.right, level + 1))
    ensures Render(t, level) == Some(Line(t, level))
    decreases t, 0
  {
    var c := t.content;
    var ind := Indent(level);
    var a, b := Line(t.left, level + 1), Line(t.right, level + 1);
    BinaryDispatch(t, level);
    assert Binary(c, t.left, t.right, level) == Some(ind + "(\n" + a + (ind + ") " + c + " (\n") + b + (ind + ")\n"));
    Regroup(ind, a, c, b);
    BinaryLine(t, level);
  }

  /** A canonical join or product reaches the printer's binary layout with its own text. */
  lemma BinaryDispatch(t: BTree, level: nat)
    requires t.Node? && t.left.Node? && t.right.Node? && Canonical(t)
    ensures Render(t, level) == Binary(t.content, t.left, t.right, level)
  {
    assert !IsSelect(t.content);
    if t.content == "X" {
      assert Strip(t.content) == "X";
    }
  }

  /** The same pieces, grouped as the printer writes them and as `Line` does. */
  lemma Regroup(ind: string, a: string, c: string, b: string)
    ensures ind + "(\n" + a + (ind + ") " + c + " (\n") + b + (ind + ")\n")
      == ind + ("(" + ("\n" + a + ind) + ")" + (" " + c + " ") + ("(" + ("\n" + b + ind) + ")")) + "\n"
  {
  }

  lemma SpacesJoin(a: string, b: string)
    requires AllSpace(a) && AllSpace(b)
    ensures AllSpace(a + b)
  {
    assert forall i :: 0 <= i < |a + b| ==> (a + b)[i] == if i < |a| then a[i] else b[i - |a|];
  }

  lemma SpacesBalanced(s: string)
    requires AllSpace(s)
    ensures Balanced(s)
  {
    assert forall i :: 0 <= i < |s| ==> s[i] != '(' && s[i] != ')';
    BalancedPlain(s);
  }

  /** Text padded as an operand: whitespace around it, which `strip` removes, and balanced when
      the text is. */
  lemma Padding(x: string, level: nat)
    requires x != [] && Stripped(x) && Balanced(x)
    ensures Strip("\n" + (Indent(level + 1) + x + "\n") + Indent(level)) == x
    ensures Balanced("\n" + (Indent(level + 1) + x + "\n") + Indent(level))
  {
    var a, b := "\n" + Indent(level + 1), "\n" + Indent(level);
    PaddingGroups(x, level);
    SpacesJoin("\n", Indent(level + 1));
    SpacesJoin("\n", Indent(level));
    PaddingBalanced(a, x, b);
    StripPadded(a, x, b);
  }

  lemma PaddingGroups(x: string, level: nat)
    ensures "\n" + (Indent(level + 1) + x + "\n") + Indent(level) == ("\n" + Indent(level + 1)) + x + ("\n" + Indent(level))
  {
  }

  lemma PaddingBalanced(a: string, x: string, b: string)
    requires AllSpace(a) && AllSpace(b) && Balanced(x)
    ensures Balanced(a + x + b)
  {
    SpacesBalanced(a);
    SpacesBalanced(b);
    BalancedConcat(a, x);
    BalancedConcat(a + x, b);
  }

  /** An operand reads back as its own text, and is balanced when that text is. */
  lemma OperandPadding(t: BTree, level: nat)
    requires Body(t, level + 1) != [] && Stripped(Body(t, level + 1)) && Balanced(Body(t, level + 1))
    ensures Strip(Operand(t, level)) == Body(t, level + 1) && Balanced(Operand(t, level))
  {
    Padding(Body(t, level + 1), level);
  }

  /** `find` stops at the first occurrence. */
  lemma {:induction false} FindCharAt(s: string, x: char, start: nat, j: nat)
    requires start <= j < |s| && s[j] == x
    requires forall k :: start <= k < j ==> s[k] != x
    ensures FindChar(s, x, start) == j
    decreases j - start
  {
    if start < j {
      FindCharAt(s, x, start + 1, j);
    }
  }

  /** The operator text read back ends at its own `]`, whatever follows it. */
  lemma LabelEnd(c: string, rest: string)
    requires Bracketed(c) && c[0] != ']' && c[1] != ']'
    ensures OperatorEnd(c + rest) == |c| && (c + rest)[..|c|] == c && (c + rest)[|c|..] == rest
  {
    var s := c + rest;
    forall k | 0 <= k < |c| - 1
      ensures s[k] != ']'
    {
      if k >= 2 {
        assert s[k] == Condition(c)[k - 2];
      }
    }
    FindCharAt(s, ']', 0, |c| - 1);
  }

  /** An operator text with a balanced condition is balanced. */
  lemma LabelBalanced(c: string)
    requires Bracketed(c) && c[0] != '(' && c[0] != ')' && c[1] != '(' && c[1] != ')'
    ensures Balanced(c)
  {
    assert c == c[..2] + Condition(c) + "]";
    BalancedPlain(c[..2]);
    BalancedPlain("]");
    BalancedConcat(c[..2], Condition(c));
    BalancedConcat(c[..2] + Condition(c), "]");
  }

  /** A unary operator over a balanced operand in parentheses. */
  lemma UnaryText(c: string, b: string)
    requires IsUnaryOperator(c) && Bracketed(c) && Balanced(b)
    ensures var e := c + ("(" + b + ")"); e != [] && Stripped(e) && Balanced(e)
  {
    assert c[0] == '𝛔' || c[0] == '𝝿';
    LabelBalanced(c);
    BalancedWrap(b);
    BalancedConcat(c, "(" + b + ")");
  }

  /** Two balanced operands in parentheses around a join or product. */
  lemma BinaryText(c: string, b1: string, b2: string)
    requires (c == "X" || (IsJoin(c) && Bracketed(c))) && Balanced(b1) && Balanced(b2)
    ensures var e := "(" + b1 + ")" + (" " + c + " ") + ("(" + b2 + ")"); e != [] && Stripped(e) && Balanced(e)
  {
    BalancedWrap(b1);
    BalancedWrap(b2);
    if c == "X" {
      BalancedPlain(" " + c + " ");
    } else {
      LabelBalanced(c);
      BalancedPlain(" ");
      BalancedConcat(" ", c);
      BalancedConcat(" " + c, " ");
    }
    BalancedConcat("(" + b1 + ")", " " + c + " ");
    BalancedConcat("(" + b1 + ")" + (" " + c + " "), "(" + b2 + ")");
  }

  /** The printed text of a canonical tree is non-empty, has no whitespace at either end and is
      balanced. */
  lemma {:induction false} BodyFacts(t: BTree, level: nat)
    requires Canonical(t)
    ensures Body(t, level) != [] && Stripped(Body(t, level)) && Balanced(Body(t, level))
    decreases t
  {
    var c, l, r := t.content, t.left, t.right;
    if l.Nil? && r.Nil? {
      BalancedPlain(c);
    } else if r.Nil? {
      BodyFacts(l, level + 1);
      OperandPadding(l, level);
      UnaryText(c, Operand(l, level));
    } else {
      BodyFacts(l, level + 1);
      BodyFacts(r, level + 1);
      OperandPadding(l, level);
      OperandPadding(r, level);
      BinaryText(c, Operand(l, level), Operand(r, level));
    }
  }

  /** Text the printer writes for a canonical tree reads back as that tree. */
  lemma {:induction false} ParseBody(t: BTree, level: nat)
    requires Canonical(t)
    ensures NodeOf(Body(t, level)) == Ok(t)
    decreases t, 1
  {
    if t.left.Nil? && t.right.Nil? {
    } else if t.right.Nil? {
      ParseUnary(t, level);
    } else {
      ParseBinary(t, level);
    }
  }

  /** An operand between its parentheses is balanced and reads back as its tree. */
  lemma {:induction false} ReadOperand(t: BTree, level: nat)
    requires Canonical(t)
    ensures Balanced(Operand(t, level)) && TreeOf(Operand(t, level)) == Ok(t)
    decreases t, 2
  {
    BodyFacts(t, level + 1);
    OperandPadding(t, level);
    ParseBody(t, level + 1);
  }

  /** A trailing space before a stripped text is dropped by `strip`. */
  lemma StripSpaceBefore(w: string)
    requires w != [] && Stripped(w)
    ensures Strip(" " + w) == w
  {
    assert " " + w == " " + w + "";
    StripPadded(" ", w, "");
  }

  lemma {:induction false} ParseUnary(t: BTree, level: nat)
    requires t.Node? && t.left.Node? && t.right.Nil? && Canonical(t)
    ensures NodeOf(Body(t, level)) == Ok(t)
    decreases t, 0
  {
    var b := Operand(t.left, level);
    ReadOperand(t.left, level);
    assert Body(t, level) == t.content + ("(" + b + ")");
    ReadUnaryText(t.content, b);
  }

  /** A unary operator over a balanced operand in parentheses is read back as the operator over
      the operand's tree. */
  lemma ReadUnaryText(c: string, b: string)
    requires IsUnaryOperator(c) && Bracketed(c) && Balanced(b)
    ensures TreeOf(b).Ok? ==> NodeOf(c + ("(" + b + ")")) == Ok(Node(c, TreeOf(b).value, Nil))
  {
    var w := "(" + b + ")";
    var e := c + w;
    assert HasOperator(e) && IsUnaryOperator(e) && e[..OperatorEnd(e)] == c && UnaryRest(e) == w by {
      assert c[0] == '𝛔' || c[0] == '𝝿';
      LabelEnd(c, w);
      StripStripped(w);
      assert e[0] == c[0] && e[..2] == c[..2];
    }
    assert Between(w, 0) == b by {
      BetweenBalanced(b, "");
      assert w + "" == w;
    }
    UnaryFromParts(e, c, b);
  }

  /** `NodeOf` on a unary operator in terms of what it reads: the operator text and the operand. */
  lemma UnaryFromParts(e: string, c: string, b: string)
    requires HasOperator(e) && IsUnaryOperator(e) && StartsWith(UnaryRest(e), "(")
    requires e[..OperatorEnd(e)] == c && Between(UnaryRest(e), 0) == b
    ensures TreeOf(b).Ok? ==> NodeOf(e) == Ok(Node(c, TreeOf(b).value, Nil))
  {
  }

  /** The operator after the left operand is read back as it was printed, and what follows it is
      the right operand in its parentheses. */
  lemma ReadOperator(c: string, w: string)
    requires c == "X" || (IsJoin(c) && Bracketed(c))
    requires w != [] && Stripped(w)
    ensures IsJoin(c + " " + w) || StartsWith(c + " " + w, "X")
    ensures BinaryLabel(c + " " + w) == c && RightText(c + " " + w) == w
  {
    var rest := c + " " + w;
    StripSpaceBefore(w);
    if c == "X" {
      assert rest[..2] == "X ";
      assert Drop(rest, 1) == " " + w;
    } else {
      assert rest[..2] == c[..2];
      assert rest == c + (" " + w);
      LabelEnd(c, " " + w);
    }
  }

  lemma {:induction false} ParseBinary(t: BTree, level: nat)
    requires t.Node? && t.left.Node? && t.right.Node? && Canonical(t)
    ensures NodeOf(Body(t, level)) == Ok(t)
    decreases t, 0
  {
    var b1, b2 := Operand(t.left, level), Operand(t.right, level);
    ReadOperand(t.left, level);
    ReadOperand(t.right, level);
    assert Body(t, level) == "(" + b1 + ")" + (" " + t.content + " ") + ("(" + b2 + ")");
    ReadBinaryText(t.content, b1, b2);
  }

  /** Two balanced operands around a join or product are split where the printer joined them. */
  lemma ReadBinaryText(c: string, b1: string, b2: string)
    requires c == "X" || (IsJoin(c) && Bracketed(c))
    requires Balanced(b1) && Balanced(b2)
    ensures NodeOf("(" + b1 + ")" + (" " + c + " ") + ("(" + b2 + ")")) == Pair(c, TreeOf(b1), TreeOf(b2))
  {
    var e := "(" + b1 + ")" + (" " + c + " ") + ("(" + b2 + ")");
    BinaryTextShape(c, b1, b2);
    BinaryTextReads(c, b1, b2);
    NodeFromBinary(e);
  }

  lemma BinaryTextShape(c: string, b1: string, b2: string)
    requires c == "X" || (IsJoin(c) && Bracketed(c))
    ensures var e := "(" + b1 + ")" + (" " + c + " ") + ("(" + b2 + ")");
      HasOperator(e) && !IsUnaryOperator(e) && StartsWith(e, "(")
  {
    var e := "(" + b1 + ")" + (" " + c + " ") + ("(" + b2 + ")");
    assert e[|b1| + 3] == c[0] && e[0] == '(';
    assert c[0] == '⨝' || c[0] == 'X';
  }

  lemma BinaryTextReads(c: string, b1: string, b2: string)
    requires c == "X" || (IsJoin(c) && Bracketed(c))
    requires Balanced(b1) && Balanced(b2)
    ensures BinaryOf("(" + b1 + ")" + (" " + c + " ") + ("(" + b2 + ")")) == Pair(c, TreeOf(b1), TreeOf(b2))
  {
    var rest := c + " " + ("(" + b2 + ")");
    assert "(" + b1 + ")" + (" " + c + " ") + ("(" + b2 + ")") == "(" + b1 + ")" + (" " + rest);
    ReadRight(c, b2);
    ReadBinaryParts(c, b1, b2, rest);
  }

  /** `NodeOf` takes the binary branch on text that starts with `(` and holds an operator. */
  lemma NodeFromBinary(e: string)
    requires HasOperator(e) && !IsUnaryOperator(e) && StartsWith(e, "(")
    ensures NodeOf(e) == BinaryOf(e)
  {
  }

  lemma ReadBinaryParts(c: string, b1: string, b2: string, rest: string)
    requires Balanced(b1) && Strip(" " + rest) == rest
    requires (IsJoin(rest) || StartsWith(rest, "X")) && BinaryLabel(rest) == c
    requires StartsWith(RightText(rest), "(") && Between(RightText(rest), 0) == b2
    ensures BinaryOf("(" + b1 + ")" + (" " + rest)) == Pair(c, TreeOf(b1), TreeOf(b2))
  {
    ReadLeft(b1, " " + rest);
    BinaryFromParts("(" + b1 + ")" + (" " + rest), rest, c, b1, b2);
  }

  /** `BinaryOf` in terms of what it reads: the left operand, the rest, the operator and the
      right operand. */
  lemma BinaryFromParts(e: string, rest: string, c: string, b1: string, b2: string)
    requires e != [] && AfterLeft(e) == rest && Between(e, 0) == b1
    requires (IsJoin(rest) || StartsWith(rest, "X")) && BinaryLabel(rest) == c
    requires StartsWith(RightText(rest), "(") && Between(RightText(rest), 0) == b2
    ensures BinaryOf(e) == Pair(c, TreeOf(b1), TreeOf(b2))
  {
  }

  /** The operator and the right operand after the left one are read back as printed. */
  lemma ReadRight(c: string, b: string)
    requires c == "X" || (IsJoin(c) && Bracketed(c))
    requires Balanced(b)
    ensures Strip(" " + (c + " " + ("(" + b + ")"))) == c + " " + ("(" + b + ")")
    ensures IsJoin(c + " " + ("(" + b + ")")) || StartsWith(c + " " + ("(" + b + ")"), "X")
    ensures BinaryLabel(c + " " + ("(" + b + ")")) == c
    ensures RightText(c + " " + ("(" + b + ")")) == "(" + b + ")"
    ensures Between("(" + b + ")", 0) == b
  {
    var w := "(" + b + ")";
    var rest := c + " " + w;
    assert rest[0] == c[0] && (c[0] == '⨝' || c[0] == 'X');
    StripSpaceBefore(rest);
    ReadOperator(c, w);
    BetweenBalanced(b, "");
    assert w + "" == w;
  }

  /** After a balanced left operand in parentheses, the builder reads the stripped rest. */
  lemma ReadLeft(b: string, tail: string)
    requires Balanced(b)
    ensures Between("(" + b + ")" + tail, 0) == b && AfterLeft("(" + b + ")" + tail) == Strip(tail)
  {
    BetweenBalanced(b, tail);
    assert Drop("(" + b + ")" + tail, |b| + 2) == tail;
  }

  /** A canonical tree survives printing and reading back: `construir_arvore` applied to the text
      `reconstruir_algebra_relacional` prints gives the same tree. */
  lemma RoundTrip(t: BTree, level: nat)
    requires Canonical(t)
    ensures Render(t, level).Some? && TreeOf(Render(t, level).value) == Ok(t)
  {
    RenderCanonical(t, level);
    BodyFacts(t, level);
    ParseBody(t, level);
    assert "\n" == [] + "\n";
    SpacesJoin([], "\n");
    StripPadded(Indent(level), Body(t, level), "\n");
  }

  // ---------------------------------------------------------------------------------------------
  // Stacked selections

  /** Selections with the conditions `conds`, outermost first, stacked on `base`. */
  function Chain(conds: seq<string>, base: BTree): (t: BTree)
    ensures conds != [] ==> IsSelectTree(t)
  {
    if conds == [] then base else Node("𝛔[" + conds[0] + "]", Chain(conds[1..], base), Nil)
  }

  /** The conditions joined pairwise from the left: `((a) ^ (b)) ^ (c)` written with parentheses
      around each side. */
  function FoldFrom(acc: string, conds: seq<string>): string
    decreases |conds|
  {
    if conds == [] then acc else FoldFrom(Conjoined(acc, conds[0]), conds[1..])
  }

  /** A selection over a chain of further selections prints as one selection whose condition
      joins all the conditions from the left, over the first operand that is not a selection; the
      right child of the outermost selection is not printed. */
  lemma {:induction false} ChainFolds(acc: string, conds: seq<string>, base: BTree, right: BTree, level: nat)
    requires conds != [] && !IsSelectTree(base)
    ensures Render(Node("𝛔[" + acc + "]", Chain(conds, base), right), level)
      == Wrap(Indent(level) + "𝛔[" + FoldFrom(acc, conds) + "](\n", Optional(base, level + 1), "", Some(""),
              Indent(level) + ")\n")
    decreases |conds|
  {
    var outer := "𝛔[" + acc + "]";
    var inner := Chain(conds, base);
    ConditionOfSelect(acc);
    ConditionOfSelect(conds[0]);
    var joined := Conjoined(acc, conds[0]);
    assert Render(Node(outer, inner, right), level) == Fold(outer, inner, level);
    assert FoldFrom(acc, conds) == FoldFrom(joined, conds[1..]);
    if conds[1..] != [] {
      assert Fold(outer, inner, level) == Render(Node("𝛔[" + joined + "]", Chain(conds[1..], base), Nil), level);
      ChainFolds(joined, conds[1..], base, Nil, level);
    } else {
      assert Chain(conds[1..], base) == base;
    }
  }

  /** Stacked selections print as one: `𝛔[a](𝛔[b](e))` prints as `𝛔[(a) ^ (b)](e)`. */
  lemma SelectionsMerge(a: string, b: string, e: BTree, level: nat)
    requires !IsSelectTree(e)
    ensures Render(Node("𝛔[" + a + "]", Node("𝛔[" + b + "]", e, Nil), Nil), level)
      == Wrap(Indent(level) + "𝛔[" + Conjoined(a, b) + "](\n", Optional(e, level + 1), "", Some(""), Indent(level) + ")\n")
  {
    assert Chain([b], e) == Node("𝛔[" + b + "]", e, Nil);
    ChainFolds(a, [b], e, Nil, level);
  }
}

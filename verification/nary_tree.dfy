/**
 * The n-ary operation tree the optimisers of `plantando_arvores` rewrite: which labels they
 * read, what they need of a tree to index its children without failing, and the size and the
 * labels of a tree, by which their rewrites are measured.
 */
module NaryTree {
  import opened Text
  import opened QueryProcessing

  /** A selection label, `σ <condition>`. */
  predicate IsSelection(op: string) { StartsWith(op, "σ ") }

  /** A projection label, `π <attributes>`. */
  predicate IsProjection(op: string) { StartsWith(op, "π ") }

  /** A product or join label, as the optimisers test it. */
  predicate IsProduct(op: string) { op == "X" || op == "⨝" }

  /** What the optimisers need of every node to index its children without an `IndexError` or a
      failed unpacking: a selection has one or two operands, a projection at least one, a
      product or join at least two. */
  predicate Sound(n: Node)
    decreases n
  {
    (IsSelection(n.op) ==> 1 <= |n.children| <= 2)
    && (IsProjection(n.op) ==> |n.children| >= 1)
    && (IsProduct(n.op) ==> |n.children| >= 2)
    && forall k :: 0 <= k < |n.children| ==> Sound(n.children[k])
  }

  /** A join labelled `⨝ <cond>` over sound operands is sound: its label is none of the labels
      that ask for a number of operands. */
  lemma JoinNodeSound(cond: string, cs: seq<Node>)
    requires forall k :: 0 <= k < |cs| ==> Sound(cs[k])
    ensures Sound(Node("⨝ " + cond, cs))
  {
    var op := "⨝ " + cond;
    assert op[0] == '⨝' && |op| >= 2;
  }

  /** Every selection of the tree has exactly one operand, as in the trees `processar` builds. */
  predicate UnarySelections(n: Node)
    decreases n
  {
    (IsSelection(n.op) ==> |n.children| == 1)
    && forall k :: 0 <= k < |n.children| ==> UnarySelections(n.children[k])
  }

  /** Every leaf is a relation: no leaf carries a selection, projection, product or join label.
      `processar` builds such a leaf from text like `σ a`, which has no `[`. */
  predicate RelationLeaves(n: Node)
    decreases n
  {
    (n.children == [] ==> !IsSelection(n.op) && !IsProjection(n.op) && !IsProduct(n.op))
    && forall k :: 0 <= k < |n.children| ==> RelationLeaves(n.children[k])
  }

  /** A tree of the shape `processar` builds whose leaves are relations can be indexed as the
      optimisers index it, and each of its selections has one operand. */
  lemma {:induction false} ShapedSound(n: Node)
    requires Shaped(n) && RelationLeaves(n)
    ensures Sound(n) && UnarySelections(n)
    decreases n
  {
    forall k | 0 <= k < |n.children|
      ensures Sound(n.children[k]) && UnarySelections(n.children[k])
    {
      ShapedSound(n.children[k]);
    }
  }

  // ---------------------------------------------------------------------------------------------
  // Size

  function Sum(xs: seq<nat>): nat
  {
    if xs == [] then 0 else xs[0] + Sum(xs[1..])
  }

  /** The number of nodes of the tree. */
  function Size(n: Node): nat
    decreases n
  {
    1 + Sum(seq(|n.children|, k requires 0 <= k < |n.children| => Size(n.children[k])))
  }

  function Sizes(cs: seq<Node>): seq<nat>
  {
    seq(|cs|, k requires 0 <= k < |cs| => Size(cs[k]))
  }

  lemma {:induction false} SumBounds(xs: seq<nat>, k: nat)
    requires k < |xs|
    ensures xs[k] <= Sum(xs)
  {
    if k > 0 {
      SumBounds(xs[1..], k - 1);
    }
  }

  lemma {:induction false} SumLe(xs: seq<nat>, ys: seq<nat>)
    requires |xs| == |ys| && forall k :: 0 <= k < |xs| ==> xs[k] <= ys[k]
    ensures Sum(xs) <= Sum(ys)
  {
    if xs != [] {
      SumLe(xs[1..], ys[1..]);
    }
  }

  lemma SizeSplit(n: Node)
    ensures Size(n) == 1 + Sum(Sizes(n.children))
  {
    assert Sizes(n.children) == seq(|n.children|, k requires 0 <= k < |n.children| => Size(n.children[k]));
  }

  /** A child is smaller than its parent. */
  lemma ChildrenSmaller(n: Node)
    ensures forall k :: 0 <= k < |n.children| ==> Size(n.children[k]) < Size(n)
  {
    SizeSplit(n);
    forall k | 0 <= k < |n.children|
      ensures Size(n.children[k]) < Size(n)
    {
      SumBounds(Sizes(n.children), k);
    }
  }

  lemma ChildSmaller(n: Node, k: nat)
    requires k < |n.children|
    ensures Size(n.children[k]) < Size(n)
  {
    ChildrenSmaller(n);
  }

  /** Two children make up the whole tree but its root. */
  lemma SizeTwo(n: Node)
    requires |n.children| == 2
    ensures Size(n) == 1 + Size(n.children[0]) + Size(n.children[1])
  {
    SizeSplit(n);
    var xs := Sizes(n.children);
    assert xs[0] == Size(n.children[0]) && xs[1] == Size(n.children[1]);
    assert Sum(xs[1..]) == xs[1] by {
      assert xs[1..][0] == xs[1] && xs[1..][1..] == [];
    }
  }

  lemma SizeOne(op: string, c: Node)
    ensures Size(Node(op, [c])) == 1 + Size(c)
  {
    SizeSplit(Node(op, [c]));
    assert Sizes([c])[1..] == [];
  }

  /** Children no larger than the old ones make a tree no larger than the old one. */
  lemma SizeNoLarger(op: string, cs: seq<Node>, ds: seq<Node>)
    requires |cs| == |ds| && forall k :: 0 <= k < |cs| ==> Size(cs[k]) <= Size(ds[k])
    ensures Size(Node(op, cs)) <= Size(Node(op, ds))
  {
    SizeSplit(Node(op, cs));
    SizeSplit(Node(op, ds));
    SumLe(Sizes(cs), Sizes(ds));
  }

  /** Moving a node in between a node and its first child keeps the number of nodes. */
  lemma SizeSwap(op: string, c: Node)
    requires |c.children| >= 1
    ensures Size(Node(c.op, [Node(op, [c.children[0]])] + c.children[1..])) == Size(Node(op, [c]))
  {
    var g := c.children[0];
    var cs := [Node(op, [g])] + c.children[1..];
    SizeOne(op, g);
    SizeOne(op, c);
    SizeSplit(c);
    SizeSplit(Node(c.op, cs));
    assert Sizes(cs)[1..] == Sizes(c.children)[1..];
  }

  // ---------------------------------------------------------------------------------------------
  // Labels

  function Union(ms: seq<multiset<string>>): multiset<string>
  {
    if ms == [] then multiset{} else ms[0] + Union(ms[1..])
  }

  /** The labels of all the nodes of the tree, with their multiplicities. */
  function Labels(n: Node): multiset<string>
    decreases n
  {
    multiset{n.op} + Union(seq(|n.children|, k requires 0 <= k < |n.children| => Labels(n.children[k])))
  }

  function LabelsOf(cs: seq<Node>): seq<multiset<string>>
  {
    seq(|cs|, k requires 0 <= k < |cs| => Labels(cs[k]))
  }

  lemma LabelsSplit(n: Node)
    ensures Labels(n) == multiset{n.op} + Union(LabelsOf(n.children))
  {
    assert LabelsOf(n.children) == seq(|n.children|, k requires 0 <= k < |n.children| => Labels(n.children[k]));
  }

  /** Children with the same labels as the old ones make a tree with the same labels. */
  lemma LabelsSame(op: string, cs: seq<Node>, ds: seq<Node>)
    requires |cs| == |ds| && forall k :: 0 <= k < |cs| ==> Labels(cs[k]) == Labels(ds[k])
    ensures Labels(Node(op, cs)) == Labels(Node(op, ds))
  {
    LabelsSplit(Node(op, cs));
    LabelsSplit(Node(op, ds));
    assert LabelsOf(cs) == LabelsOf(ds);
  }

  lemma LabelsOne(op: string, c: Node)
    ensures Labels(Node(op, [c])) == multiset{op} + Labels(c)
  {
    LabelsSplit(Node(op, [c]));
    assert LabelsOf([c])[1..] == [];
  }

  /** Moving a node in between a node and its first child keeps the labels. */
  lemma LabelsSwap(op: string, c: Node)
    requires |c.children| >= 1
    ensures Labels(Node(c.op, [Node(op, [c.children[0]])] + c.children[1..])) == Labels(Node(op, [c]))
  {
    var g := c.children[0];
    var cs := [Node(op, [g])] + c.children[1..];
    var ms, ns := LabelsOf(cs), LabelsOf(c.children);
    assert Labels(Node(c.op, cs)) == multiset{c.op} + Union(ms) by {
      LabelsSplit(Node(c.op, cs));
    }
    assert Labels(c) == multiset{c.op} + Union(ns) by {
      LabelsSplit(c);
    }
    assert Union(ms) == multiset{op} + Union(ns) by {
      assert ms[0] == multiset{op} + ns[0] by {
        LabelsOne(op, g);
      }
      assert ms[1..] == ns[1..];
      UnionHead(ms, ns, multiset{op});
    }
    LabelsOne(op, c);
  }

  lemma UnionHead(ms: seq<multiset<string>>, ns: seq<multiset<string>>, x: multiset<string>)
    requires |ms| >= 1 && |ns| >= 1 && ms[0] == x + ns[0] && ms[1..] == ns[1..]
    ensures Union(ms) == x + Union(ns)
  {
  }
}

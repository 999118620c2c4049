/**
 * `plantando_arvores/otimizacao_consultas`: the optimiser that collects the chain of selections
 * at the top of the tree and pushes each condition down towards the relations whose
 * single-letter aliases it names.
 */
module ChainOptimizer {
  import opened Text
  import opened QueryProcessing
  import opened NaryTree

  // ---------------------------------------------------------------------------------------------
  // tabelas_usadas

  /** `\b([A-Z])\.` matches at `i`: an upper-case ASCII letter that starts a word, then a dot. */
  predicate TableMarkAt(c: string, i: nat)
    requires i + 1 < |c|
  {
    'A' <= c[i] <= 'Z' && c[i + 1] == '.' && (i == 0 || !IsWordChar(c[i - 1]))
  }

  /** `tabelas_usadas(condicao)`: the letter of every match. */
  function TablesUsed(cond: string): (r: set<string>)
    ensures '.' !in cond ==> r == {}
  {
    set i | 0 <= i < |cond| - 1 && TableMarkAt(cond, i) :: [cond[i]]
  }

  /** Every table a condition names is one upper-case letter written in it, right before a dot. */
  lemma TablesUsedLetters(cond: string)
    ensures forall t :: t in TablesUsed(cond) ==>
      |t| == 1 && 'A' <= t[0] <= 'Z' && exists i :: 0 <= i < |cond| - 1 && cond[i] == t[0] && cond[i + 1] == '.'
  {
  }

  /** A qualified attribute whose alias is one upper-case letter names that letter alone. */
  lemma TablesUsedOfAttribute(x: char, a: string)
    requires 'A' <= x <= 'Z' && forall k :: 0 <= k < |a| ==> IsWordChar(a[k])
    ensures TablesUsed([x, '.'] + a) == {[x]}
  {
    var c := [x, '.'] + a;
    assert TableMarkAt(c, 0);
    forall i | 1 <= i < |c| - 1
      ensures !TableMarkAt(c, i)
    {
      if i == 1 {
        assert c[1] == '.';
      } else {
        assert c[i + 1] == a[i - 1];
      }
    }
  }

  /** Words set apart by a space name their tables independently: a match never spans the
      space. */
  lemma TablesUsedSpaced(a: string, b: string)
    ensures TablesUsed(a + " " + b) == TablesUsed(a) + TablesUsed(b)
  {
    var c := a + " " + b;
    forall t | t in TablesUsed(c)
      ensures t in TablesUsed(a) + TablesUsed(b)
    {
      var i :| 0 <= i < |c| - 1 && TableMarkAt(c, i) && t == [c[i]];
      MarkSplits(a, b, i);
    }
    forall t | t in TablesUsed(a)
      ensures t in TablesUsed(c)
    {
      var i :| 0 <= i < |a| - 1 && TableMarkAt(a, i) && t == [a[i]];
      assert c[i] == a[i] && c[i + 1] == a[i + 1] && (i == 0 || c[i - 1] == a[i - 1]);
      assert TableMarkAt(c, i);
    }
    forall t | t in TablesUsed(b)
      ensures t in TablesUsed(c)
    {
      var j :| 0 <= j < |b| - 1 && TableMarkAt(b, j) && t == [b[j]];
      var i := |a| + 1 + j;
      assert c[i] == b[j] && c[i + 1] == b[j + 1];
      assert c[i - 1] == if j == 0 then ' ' else b[j - 1];
      assert TableMarkAt(c, i);
    }
  }

  lemma MarkSplits(a: string, b: string, i: nat)
    requires i + 1 < |a + " " + b| && TableMarkAt(a + " " + b, i)
    ensures || (i + 1 < |a| && TableMarkAt(a, i) && (a + " " + b)[i] == a[i])
            || (i > |a| && i - |a| < |b| && TableMarkAt(b, i - |a| - 1) && (a + " " + b)[i] == b[i - |a| - 1])
  {
    var c := a + " " + b;
    assert c[|a|] == ' ';
    if i + 1 < |a| {
      assert c[i] == a[i] && c[i + 1] == a[i + 1] && (i == 0 || c[i - 1] == a[i - 1]);
    } else if i > |a| {
      var j := i - |a| - 1;
      assert c[i] == b[j] && c[i + 1] == b[j + 1];
      assert j > 0 ==> c[i - 1] == b[j - 1];
    }
  }

  // ---------------------------------------------------------------------------------------------
  // coletar_tabelas

  /** The end of the run of word characters (`\w`) that starts at `i`. */
  function WordEnd(s: string, i: nat): (e: nat)
    requires i <= |s|
    ensures i <= e <= |s| && (e == |s| || !IsWordChar(s[e]))
    ensures forall k :: i <= k < e ==> IsWordChar(s[k])
    decreases |s| - i
  {
    if i < |s| && IsWordChar(s[i]) then WordEnd(s, i + 1) else i
  }

  /** `\[(\w+)\]` matches at `p`. */
  predicate CaptureAt(op: string, p: nat)
    requires p < |op|
  {
    op[p] == '[' && var e := WordEnd(op, p + 1); p + 1 < e < |op| && op[e] == ']'
  }

  /** `re.search(r"\[(\w+)\]", op)` from `p` on: the word between the brackets of the first
      match, if any. */
  function FirstCapture(op: string, p: nat): Option<string>
    requires p <= |op|
    decreases |op| - p
  {
    if p == |op| then None
    else if CaptureAt(op, p) then Some(op[p + 1..WordEnd(op, p + 1)])
    else FirstCapture(op, p + 1)
  }

  /** The search finds the word of a match when there is one, and of the first one; it finds
      nothing only when nothing matches. */
  lemma {:induction false} FirstCaptureMeans(op: string, p: nat)
    requires p <= |op|
    ensures FirstCapture(op, p).Some? ==> exists q :: (p <= q < |op| && CaptureAt(op, q)
      && FirstCapture(op, p).value == op[q + 1..WordEnd(op, q + 1)]
      && forall q' :: p <= q' < q ==> !CaptureAt(op, q'))
    ensures FirstCapture(op, p).None? ==> forall q :: p <= q < |op| ==> !CaptureAt(op, q)
    decreases |op| - p
  {
    if p < |op| && !CaptureAt(op, p) {
      FirstCaptureMeans(op, p + 1);
      if FirstCapture(op, p).Some? {
        var q :| p + 1 <= q < |op| && CaptureAt(op, q)
          && FirstCapture(op, p + 1).value == op[q + 1..WordEnd(op, q + 1)]
          && forall q' :: p + 1 <= q' < q ==> !CaptureAt(op, q');
        assert forall q' :: p <= q' < q ==> !CaptureAt(op, q');
      }
    }
  }

  /** `coletar_tabelas(no)`: a label holding both brackets names the word of its first
      `[word]` (or nothing); any other node gathers the tables of its children. */
  function Tables(n: Node): set<string>
    decreases n
  {
    if '[' in n.op && ']' in n.op then
      match FirstCapture(n.op, 0)
      case Some(w) => {w}
      case None => {}
    else
      set k, t | 0 <= k < |n.children| && t in Tables(n.children[k]) :: t
  }

  /** The tables of the first `count` of `cs`. */
  ghost function TablesOfFirst(cs: seq<Node>, count: nat): set<string>
    requires count <= |cs|
  {
    set k, t | 0 <= k < count && t in Tables(cs[k]) :: t
  }

  /** `coletar_tabelas(no)` */
  method CollectTables(n: Node) returns (tabelas: set<string>)
    ensures tabelas == Tables(n)
    decreases n
  {
    if '[' in n.op && ']' in n.op {
      var found := FirstCapture(n.op, 0);
      if found.Some? {
        return {found.value};
      }
      return {};
    }
    tabelas := {};
    for i := 0 to |n.children|
      invariant tabelas == TablesOfFirst(n.children, i)
    {
      var more := CollectTables(n.children[i]);
      tabelas := tabelas + more;
      assert TablesOfFirst(n.children, i + 1) == TablesOfFirst(n.children, i) + Tables(n.children[i]);
    }
  }

  /** A relation `T[A]`, whose name holds no `[`, is the table named by its alias. */
  lemma TablesOfLeaf(t: string, a: string)
    requires '[' !in t && a != [] && forall k :: 0 <= k < |a| ==> IsWordChar(a[k])
    ensures Tables(Node(t + "[" + a + "]", [])) == {a}
  {
    var op := t + "[" + a + "]";
    var p := |t|;
    assert op[p] == '[' && op[|op| - 1] == ']';
    assert WordEnd(op, p + 1) == |op| - 1 by {
      WordEndOver(op, p + 1, |op| - 1);
    }
    assert op[p + 1..|op| - 1] == a;
    assert CaptureAt(op, p);
    assert forall q :: 0 <= q < p ==> op[q] == t[q];
    assert FirstCapture(op, 0) == Some(a) by {
      FirstCaptureSkips(op, 0, p);
    }
  }

  lemma {:induction false} WordEndOver(s: string, i: nat, e: nat)
    requires i <= e < |s| && !IsWordChar(s[e]) && forall k :: i <= k < e ==> IsWordChar(s[k])
    ensures WordEnd(s, i) == e
    decreases e - i
  {
    if i < e {
      WordEndOver(s, i + 1, e);
    }
  }

  lemma {:induction false} FirstCaptureSkips(op: string, p: nat, q: nat)
    requires p <= q < |op| && CaptureAt(op, q) && forall k :: p <= k < q ==> op[k] != '['
    ensures FirstCapture(op, p) == Some(op[q + 1..WordEnd(op, q + 1)])
    decreases q - p
  {
    if p < q {
      assert op[p] != '[';
      FirstCaptureSkips(op, p + 1, q);
    }
  }

  // ---------------------------------------------------------------------------------------------
  // empurrar_selecao

  /** What `empurrar_selecao(condicao, no)` returns. A node whose tables do not cover those of
      the condition is left as it is. At a node with two children, the condition goes into the
      left child when that covers it, else into the right one, and no selection is added there.
      Otherwise the condition goes into every child and the node is wrapped in `σ <condicao>`. */
  function Push(cond: string, n: Node): Node
    decreases n
  {
    var need := TablesUsed(cond);
    if !(need <= Tables(n)) then n
    else if |n.children| == 2 && need <= Tables(n.children[0]) then
      Node(n.op, [Push(cond, n.children[0]), n.children[1]])
    else if |n.children| == 2 && need <= Tables(n.children[1]) then
      Node(n.op, [n.children[0], Push(cond, n.children[1])])
    else
      Node("σ " + cond, [Node(n.op, seq(|n.children|, k requires 0 <= k < |n.children| => Push(cond, n.children[k])))])
  }

  /** `empurrar_selecao(condicao, no)` */
  method PushSelection(cond: string, n: Node) returns (r: Node)
    ensures r == Push(cond, n)
    decreases n
  {
    var need := TablesUsed(cond);
    var sub := CollectTables(n);
    if !(need <= sub) {
      return n;
    }
    if |n.children| == 2 {
      var left := CollectTables(n.children[0]);
      var right := CollectTables(n.children[1]);
      if need <= left {
        var pushed := PushSelection(cond, n.children[0]);
        return Node(n.op, [pushed, n.children[1]]);
      } else if need <= right {
        var pushed := PushSelection(cond, n.children[1]);
        return Node(n.op, [n.children[0], pushed]);
      }
    }
    var filhos := n.children;
    for i := 0 to |filhos|
      invariant |filhos| == |n.children|
      invariant forall k :: 0 <= k < i ==> filhos[k] == Push(cond, n.children[k])
      invariant filhos[i..] == n.children[i..]
    {
      assert filhos[i] == n.children[i];
      var pushed := PushSelection(cond, filhos[i]);
      filhos := filhos[i := pushed];
    }
    assert filhos == seq(|n.children|, k requires 0 <= k < |n.children| => Push(cond, n.children[k]));
    r := Node("σ " + cond, [Node(n.op, filhos)]);
  }

  /** Every node is a selection once its label starts with `σ` (the test of `otimizar_arvore`). */
  predicate SelectionLike(op: string) { StartsWith(op, "σ") }

  /** The tree with every selection over one operand taken out. */
  function Erase(n: Node): Node
    decreases n
  {
    if SelectionLike(n.op) && |n.children| == 1 then Erase(n.children[0])
    else Node(n.op, seq(|n.children|, k requires 0 <= k < |n.children| => Erase(n.children[k])))
  }

  /** Pushing a condition only adds selections: with them taken out, the tree is the one
      given. */
  lemma {:induction false} PushErases(cond: string, n: Node)
    ensures Erase(Push(cond, n)) == Erase(n)
    decreases n
  {
    var need := TablesUsed(cond);
    if !(need <= Tables(n)) {
    } else if |n.children| == 2 && need <= Tables(n.children[0]) {
      PushErases(cond, n.children[0]);
      SameErased(n, Push(cond, n));
    } else if |n.children| == 2 && need <= Tables(n.children[1]) {
      PushErases(cond, n.children[1]);
      SameErased(n, Push(cond, n));
    } else {
      var m := Node(n.op, seq(|n.children|, k requires 0 <= k < |n.children| => Push(cond, n.children[k])));
      forall k | 0 <= k < |n.children|
        ensures Erase(m.children[k]) == Erase(n.children[k])
      {
        PushErases(cond, n.children[k]);
      }
      SameErased(n, m);
      assert SelectionLike("σ " + cond);
      assert Push(cond, n) == Node("σ " + cond, [m]);
    }
  }

  /** Nodes with the same label and children that erase alike erase alike. */
  lemma SameErased(n: Node, m: Node)
    requires n.op == m.op && |n.children| == |m.children|
    requires forall k :: 0 <= k < |n.children| ==> Erase(n.children[k]) == Erase(m.children[k])
    ensures Erase(n) == Erase(m)
  {
    if !(SelectionLike(n.op) && |n.children| == 1) {
      var en := seq(|n.children|, k requires 0 <= k < |n.children| => Erase(n.children[k]));
      var em := seq(|m.children|, k requires 0 <= k < |m.children| => Erase(m.children[k]));
      assert en == em;
    }
  }

  /** There is a node `σ <cond>` over one operand somewhere in the tree. */
  predicate HasSelection(n: Node, cond: string)
    decreases n
  {
    (n.op == "σ " + cond && |n.children| == 1)
    || exists k :: 0 <= k < |n.children| && HasSelection(n.children[k], cond)
  }

  /** A condition whose tables the tree covers ends up in a selection somewhere in it; one whose
      tables it does not cover is dropped, the tree left as it was. */
  lemma {:induction false} PushPlaces(cond: string, n: Node)
    ensures TablesUsed(cond) <= Tables(n) ==> HasSelection(Push(cond, n), cond)
    ensures !(TablesUsed(cond) <= Tables(n)) ==> Push(cond, n) == n
    decreases n
  {
    var need := TablesUsed(cond);
    if !(need <= Tables(n)) {
    } else if |n.children| == 2 && need <= Tables(n.children[0]) {
      PushPlaces(cond, n.children[0]);
      assert Push(cond, n).children[0] == Push(cond, n.children[0]);
    } else if |n.children| == 2 && need <= Tables(n.children[1]) {
      PushPlaces(cond, n.children[1]);
      assert Push(cond, n).children[1] == Push(cond, n.children[1]);
    }
  }

  /** With no `[` in the condition, the tables of the tree stay the same after the push. */
  lemma {:induction false} PushKeepsTables(cond: string, n: Node)
    requires '[' !in cond
    ensures Tables(Push(cond, n)) == Tables(n)
    decreases n
  {
    var need := TablesUsed(cond);
    var r := Push(cond, n);
    if !(need <= Tables(n)) {
    } else if '[' in n.op && ']' in n.op {
      SameTables(n, if r.op == n.op then r else r.children[0]);
    } else if |n.children| == 2 && need <= Tables(n.children[0]) {
      PushKeepsTables(cond, n.children[0]);
      SameTables(n, r);
    } else if |n.children| == 2 && need <= Tables(n.children[1]) {
      PushKeepsTables(cond, n.children[1]);
      SameTables(n, r);
    } else {
      var m := r.children[0];
      forall k | 0 <= k < |n.children|
        ensures Tables(m.children[k]) == Tables(n.children[k])
      {
        PushKeepsTables(cond, n.children[k]);
      }
      SameTables(n, m);
      WrapTables(cond, m);
    }
  }

  /** Nodes with the same label and children of the same tables have the same tables. */
  lemma SameTables(n: Node, m: Node)
    requires n.op == m.op
    requires !('[' in n.op && ']' in n.op) ==>
      (|n.children| == |m.children| && forall k :: 0 <= k < |n.children| ==> Tables(n.children[k]) == Tables(m.children[k]))
    ensures Tables(n) == Tables(m)
  {
    if !('[' in n.op && ']' in n.op) {
      TablesWithin(n, m);
      TablesWithin(m, n);
    }
  }

  lemma TablesWithin(n: Node, m: Node)
    requires n.op == m.op && !('[' in n.op && ']' in n.op) && |n.children| == |m.children|
    requires forall k :: 0 <= k < |n.children| ==> Tables(n.children[k]) == Tables(m.children[k])
    ensures Tables(n) <= Tables(m)
  {
    forall t | t in Tables(n)
      ensures t in Tables(m)
    {
      var k :| 0 <= k < |n.children| && t in Tables(n.children[k]);
      assert t in Tables(m.children[k]);
    }
  }

  /** A selection without `[` in its condition has the tables of its operand. */
  lemma WrapTables(cond: string, m: Node)
    requires '[' !in cond
    ensures Tables(Node("σ " + cond, [m])) == Tables(m)
  {
    var op := "σ " + cond;
    assert '[' !in op by {
      assert forall k :: 2 <= k < |op| ==> op[k] == cond[k - 2];
    }
    var w := Node(op, [m]);
    forall t | t in Tables(m)
      ensures t in Tables(w)
    {
      assert w.children[0] == m;
    }
  }

  /** Pushing a covered condition into a node over one relation places it twice: once around
      the relation and once around the node. */
  lemma PushDuplicates(cond: string, op: string, leaf: Node)
    requires '[' !in op && leaf.children == [] && TablesUsed(cond) <= Tables(leaf)
    ensures Push(cond, Node(op, [leaf])) == Node("σ " + cond, [Node(op, [Node("σ " + cond, [leaf])])])
  {
    SameTablesOne(op, leaf);
    PushLeaf(cond, leaf);
    PushOne(cond, op, leaf);
  }

  /** Pushing a covered condition into a relation wraps it. */
  lemma PushLeaf(cond: string, leaf: Node)
    requires leaf.children == [] && TablesUsed(cond) <= Tables(leaf)
    ensures Push(cond, leaf) == Node("σ " + cond, [leaf])
  {
    var s := seq(|leaf.children|, k requires 0 <= k < |leaf.children| => Push(cond, leaf.children[k]));
    assert s == [];
    assert Push(cond, leaf) == Node("σ " + cond, [Node(leaf.op, s)]);
  }

  /** Pushing a covered condition into a node over one operand. */
  lemma PushOne(cond: string, op: string, c: Node)
    requires TablesUsed(cond) <= Tables(Node(op, [c]))
    ensures Push(cond, Node(op, [c])) == Node("σ " + cond, [Node(op, [Push(cond, c)])])
  {
    var n := Node(op, [c]);
    var s := seq(|n.children|, k requires 0 <= k < |n.children| => Push(cond, n.children[k]));
    assert s == [Push(cond, c)];
    assert Push(cond, n) == Node("σ " + cond, [Node(n.op, s)]);
  }

  /** A node without `[` in its label over one operand has the tables of that operand. */
  lemma SameTablesOne(op: string, c: Node)
    requires '[' !in op
    ensures Tables(Node(op, [c])) == Tables(c)
  {
    var w := Node(op, [c]);
    forall t | t in Tables(c)
      ensures t in Tables(w)
    {
      assert w.children[0] == c;
    }
  }

  // ---------------------------------------------------------------------------------------------
  // otimizar_arvore

  /** Why `otimizar_arvore` fails: it calls itself on the same selection forever (a
      `RecursionError`), or a projection has no operand (an `IndexError`). */
  datatype Stall = EndlessRecursion | MissingChild

  /** `s[2:]` */
  function Tail2(s: string): string
  {
    if |s| >= 2 then s[2..] else []
  }

  /** The conditions of the selections over one operand at the top of the tree, outermost first,
      and what lies beneath them. */
  function Chain(n: Node): (r: (seq<string>, Node))
    ensures |r.0| == 0 ==> r.1 == n
    ensures |r.0| > 0 ==> Size(r.1) < Size(n)
    ensures !(SelectionLike(r.1.op) && |r.1.children| == 1)
    decreases n
  {
    if SelectionLike(n.op) && |n.children| == 1 then
      var rest := Chain(n.children[0]);
      ChildSmaller(n, 0);
      ([Strip(Tail2(n.op))] + rest.0, rest.1)
    else ([], n)
  }

  /** The tree once each of `conds`, the first first, has been pushed into it. */
  function PushAll(conds: seq<string>, t: Node): Node
  {
    if conds == [] then t else Push(conds[|conds| - 1], PushAll(conds[..|conds| - 1], t))
  }

  /** What `otimizar_arvore(raiz)` returns. A root that is neither a projection nor a selection
      is left as it is; under a projection the first operand is optimised; under a selection the
      chain of selections is taken off, what lies beneath it optimised, and each condition of
      the chain pushed back in, the outermost first. */
  function OptimizeTree(n: Node): Result<Node, Stall>
    decreases Size(n)
  {
    if !StartsWith(n.op, "π") && !SelectionLike(n.op) then Ok(n)
    else if StartsWith(n.op, "π") then
      if n.children == [] then Err(MissingChild)
      else
        ChildSmaller(n, 0);
        match OptimizeTree(n.children[0])
        case Err(e) => Err(e)
        case Ok(c) => Ok(Node(n.op, [c] + n.children[1..]))
    else
      var (conds, below) := Chain(n);
      if SelectionLike(below.op) then Err(EndlessRecursion)
      else
        match OptimizeTree(below)
        case Err(e) => Err(e)
        case Ok(sub) => Ok(PushAll(conds, sub))
  }

  /** `otimizar_arvore(raiz)` */
  method OptimizeTreeWalk(n: Node) returns (r: Result<Node, Stall>)
    ensures r == OptimizeTree(n)
    decreases Size(n)
  {
    if !StartsWith(n.op, "π") && !SelectionLike(n.op) {
      return Ok(n);
    }
    if StartsWith(n.op, "π") {
      if n.children == [] {
        return Err(MissingChild);
      }
      ChildSmaller(n, 0);
      var c := OptimizeTreeWalk(n.children[0]);
      if c.Err? {
        return Err(c.error);
      }
      return Ok(Node(n.op, [c.value] + n.children[1..]));
    }
    var selecoes, atual := TakeChain(n);
    if SelectionLike(atual.op) {
      return Err(EndlessRecursion);
    }
    var sub := OptimizeTreeWalk(atual);
    if sub.Err? {
      return sub;
    }
    var subraiz := PushEach(selecoes, sub.value);
    return Ok(subraiz);
  }

  /** The `while` loop of `otimizar_arvore`: the conditions of the chain of selections at the
      root, outermost first, and the node beneath it. */
  method TakeChain(n: Node) returns (selecoes: seq<string>, atual: Node)
    ensures (selecoes, atual) == Chain(n)
  {
    selecoes := [];
    atual := n;
    while SelectionLike(atual.op) && |atual.children| == 1
      invariant selecoes + Chain(atual).0 == Chain(n).0 && Chain(atual).1 == Chain(n).1
      decreases Size(atual)
    {
      ChildSmaller(atual, 0);
      assert Chain(atual).0 == [Strip(Tail2(atual.op))] + Chain(atual.children[0]).0;
      selecoes := selecoes + [Strip(Tail2(atual.op))];
      atual := atual.children[0];
    }
    assert Chain(atual) == ([], atual);
    assert selecoes + [] == selecoes;
  }

  /** The `for` loop of `otimizar_arvore`: each condition pushed in turn, the first first. */
  method PushEach(selecoes: seq<string>, t: Node) returns (subraiz: Node)
    ensures subraiz == PushAll(selecoes, t)
  {
    subraiz := t;
    for i := 0 to |selecoes|
      invariant subraiz == PushAll(selecoes[..i], t)
    {
      assert selecoes[..i + 1][..i] == selecoes[..i];
      subraiz := PushSelection(selecoes[i], subraiz);
    }
    assert selecoes[..|selecoes|] == selecoes;
  }

  /** Taking the chain off does not change the erased tree. */
  lemma {:induction false} ChainErases(n: Node)
    ensures Erase(Chain(n).1) == Erase(n)
    decreases n
  {
    if SelectionLike(n.op) && |n.children| == 1 {
      ChainErases(n.children[0]);
    }
  }

  lemma {:induction false} PushAllErases(conds: seq<string>, t: Node)
    ensures Erase(PushAll(conds, t)) == Erase(t)
  {
    if conds != [] {
      PushAllErases(conds[..|conds| - 1], t);
      PushErases(conds[|conds| - 1], PushAll(conds[..|conds| - 1], t));
    }
  }

  /** The optimiser only moves, drops or repeats selections: with every selection over one
      operand taken out, its result is the tree given. */
  lemma {:induction false} OptimizeTreeErases(n: Node)
    ensures OptimizeTree(n).Ok? ==> Erase(OptimizeTree(n).value) == Erase(n)
    decreases Size(n)
  {
    if !StartsWith(n.op, "π") && !SelectionLike(n.op) {
    } else if StartsWith(n.op, "π") {
      if n.children != [] {
        ChildSmaller(n, 0);
        OptimizeTreeErases(n.children[0]);
        if OptimizeTree(n).Ok? {
          var c := OptimizeTree(n.children[0]).value;
          var m := Node(n.op, [c] + n.children[1..]);
          assert OptimizeTree(n).value == m;
          assert !SelectionLike(n.op) by {
            assert n.op[0] == 'π';
          }
          SameErased(n, m);
        }
      }
    } else {
      var (conds, below) := Chain(n);
      ChainErases(n);
      if !SelectionLike(below.op) {
        OptimizeTreeErases(below);
        if OptimizeTree(below).Ok? {
          PushAllErases(conds, OptimizeTree(below).value);
        }
      }
    }
  }

  /** A selection over a relation whose condition names a table the relation does not have
      comes back without the selection: the condition is lost. */
  lemma OptimizeDropsUncovered(cond: string, l: Node)
    requires !StartsWith(l.op, "π") && !SelectionLike(l.op) && l.children == []
    requires Stripped(cond) && TablesUsed(cond) != {} && Tables(l) == {}
    ensures OptimizeTree(Node("σ " + cond, [l])) == Ok(l)
  {
    var n := Node("σ " + cond, [l]);
    assert SelectionLike(n.op);
    assert Chain(l) == ([], l);
    assert Chain(n) == ([Strip(Tail2(n.op))], l) by {
      assert [Strip(Tail2(n.op))] + [] == [Strip(Tail2(n.op))];
    }
    assert [Strip(Tail2(n.op))][..0] == [];
    assert PushAll([Strip(Tail2(n.op))], l) == Push(Strip(Tail2(n.op)), l);
    assert Tail2(n.op) == cond;
    StripStripped(cond);
  }
}

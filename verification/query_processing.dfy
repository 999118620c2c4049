/**
 * `processamento_consultas`: the builder of the n-ary operation tree from relational-algebra
 * text. A selection whose condition is a conjunction becomes a chain of selection nodes, one per
 * conjunct; a projection becomes one node; joins and products both become a node labelled `X`.
 */
module QueryProcessing {
  import opened Text
  import opened Parens

  /** A node of the n-ary tree: its operation label (`operacao`) and its ordered children
      (`filhos`). */
  datatype Node = Node(op: string, children: seq<Node>)

  /** Why `processar` raises: a parenthesis that is never closed (`ValueError` from
      `extrair_conteudo_parenteses`), or a projection or selection without `](` (`str.index`). */
  datatype Failure = UnbalancedParentheses | MissingOperand

  // ---------------------------------------------------------------------------------------------
  // quebrar_condicoes

  /** The parts of `c` between the `∧` met while the parenthesis count, started at `depth`, is
      zero. The parts keep their spaces and their parentheses. */
  function Cut(c: string, depth: int): (parts: seq<string>)
    ensures |parts| >= 1
    decreases |c|
  {
    if c == [] then [[]]
    else if c[0] == '∧' && depth == 0 then [[]] + Cut(c[1..], depth)
    else
      var rest := Cut(c[1..], depth + Delta(c[0]));
      [[c[0]] + rest[0]] + rest[1..]
  }

  /** The parts found so far, the part being read and the parts of the text not yet read. */
  function Glue(done: seq<string>, buffer: string, rest: seq<string>): seq<string>
    requires |rest| >= 1
  {
    done + [buffer + rest[0]] + rest[1..]
  }

  /** `quebrar_condicoes(condicao)` */
  method SplitConditions(condition: string) returns (parts: seq<string>)
    ensures parts == Cut(condition, 0)
  {
    parts := [];
    var buffer := "";
    var depth := 0;
    GlueNone(Cut(condition, 0));
    for i := 0 to |condition|
      invariant Glue(parts, buffer, Cut(condition[i..], depth)) == Cut(condition, 0)
    {
      var c := condition[i];
      var rest := Cut(condition[i + 1..], depth + Delta(c));
      assert condition[i..] == [c] + condition[i + 1..];
      CutCons(c, condition[i + 1..], depth);
      if c == '(' {
        depth := depth + 1;
      } else if c == ')' {
        depth := depth - 1;
      }
      if c == '∧' && depth == 0 {
        GlueCut(parts, buffer, rest);
        parts := parts + [buffer];
        buffer := "";
      } else {
        GlueChar(parts, buffer, [c], rest);
        buffer := buffer + [c];
      }
    }
    assert condition[|condition|..] == [];
    assert Cut([], depth) == [[]] && buffer + [] == buffer;
    parts := parts + [buffer];
  }

  /** The parts of a text that starts with `ch`. */
  lemma CutCons(ch: char, t: string, depth: int)
    ensures Cut([ch] + t, depth)
      == if ch == '∧' && depth == 0 then [[]] + Cut(t, depth) else Glue([], [ch], Cut(t, depth + Delta(ch)))
  {
    assert ([ch] + t)[0] == ch && ([ch] + t)[1..] == t;
  }

  lemma GlueNone(rest: seq<string>)
    requires |rest| >= 1
    ensures Glue([], [], rest) == rest
  {
    assert [] + rest[0] == rest[0];
    assert [rest[0]] + rest[1..] == rest;
  }

  lemma GlueCut(done: seq<string>, buffer: string, rest: seq<string>)
    requires |rest| >= 1
    ensures Glue(done, buffer, [[]] + rest) == Glue(done + [buffer], [], rest)
  {
    assert ([[]] + rest)[1..] == rest && ([[]] + rest)[0] == [];
    assert buffer + [] == buffer;
    assert [] + rest[0] == rest[0];
  }

  lemma GlueChar(done: seq<string>, buffer: string, x: string, rest: seq<string>)
    requires |rest| >= 1
    ensures Glue(done, buffer, Glue([], x, rest)) == Glue(done, buffer + x, rest)
  {
    assert Glue([], x, rest)[1..] == rest[1..];
    assert buffer + (x + rest[0]) == buffer + x + rest[0];
  }

  lemma {:induction false} JoinGlued(x: string, rest: seq<string>, sep: string)
    requires |rest| >= 1
    ensures JoinWith([x + rest[0]] + rest[1..], sep) == x + JoinWith(rest, sep)
  {
    var first := [x + rest[0]] + rest[1..];
    assert first[1..] == rest[1..];
    if |rest| >= 2 {
      assert JoinWith(rest, sep) == rest[0] + sep + JoinWith(rest[1..], sep);
    }
  }

  /** Joining the parts with `∧` gives back the condition: nothing is lost or added. */
  lemma {:induction false} CutJoins(c: string, depth: int)
    ensures JoinWith(Cut(c, depth), "∧") == c
    decreases |c|
  {
    if c == [] {
    } else if c[0] == '∧' && depth == 0 {
      CutJoins(c[1..], depth);
      var rest := Cut(c[1..], depth);
      assert ([[]] + rest)[1..] == rest;
      assert c == [] + "∧" + c[1..];
    } else {
      CutJoins(c[1..], depth + Delta(c[0]));
      JoinGlued([c[0]], Cut(c[1..], depth + Delta(c[0])), "∧");
      assert c == [c[0]] + c[1..];
    }
  }

  /** The count, started at `depth` before `b`, is one or more before and after every character
      of `b`. */
  predicate Above(b: string, depth: int)
    decreases |b|
  {
    depth >= 1 && (b == [] || Above(b[1..], depth + Delta(b[0])))
  }

  /** Text whose prefixes keep the count at or above `off` keeps a count started at `off + 1`
      above zero. */
  lemma {:induction false} StaysAboveAbove(b: string, off: int)
    requires off >= 0 && StaysAbove(b, off)
    ensures Above(b, off + 1)
    decreases |b|
  {
    if b != [] {
      StaysAboveTail(b, off);
      StaysAboveAbove(b[1..], off + Delta(b[0]));
    }
  }

  /** The count after `b`, started at `depth` before it. */
  function After(b: string, depth: int): int
    decreases |b|
  {
    if b == [] then depth else After(b[1..], depth + Delta(b[0]))
  }

  lemma {:induction false} AfterBalance(b: string, depth: int)
    ensures After(b, depth) == depth + Balance(b)
    decreases |b|
  {
    if b != [] {
      AfterBalance(b[1..], depth + Delta(b[0]));
      assert b == [b[0]] + b[1..];
      BalanceConcat([b[0]], b[1..]);
      BalanceChar(b[0]);
    }
  }

  /** While the count stays at one or more, no `∧` is a cut: the text joins the current part. */
  lemma {:induction false} CutAbove(b: string, t: string, depth: int)
    requires Above(b, depth)
    ensures Cut(b + t, depth) == Glue([], b, Cut(t, After(b, depth)))
    decreases |b|
  {
    if b == [] {
      assert b + t == t;
      GlueNone(Cut(t, depth));
    } else {
      var d := depth + Delta(b[0]);
      CutAbove(b[1..], t, d);
      var u, rest := b[1..] + t, Cut(t, After(b[1..], d));
      assert b + t == [b[0]] + u;
      GlueStep(b, u, depth, rest);
    }
  }

  lemma GlueStep(b: string, u: string, depth: int, rest: seq<string>)
    requires b != [] && |rest| >= 1 && !(b[0] == '∧' && depth == 0)
    requires Cut(u, depth + Delta(b[0])) == Glue([], b[1..], rest)
    ensures Cut([b[0]] + u, depth) == Glue([], b, rest)
  {
    CutCons(b[0], u, depth);
    GlueChar([], [b[0]], b[1..], rest);
    assert [b[0]] + b[1..] == b;
  }

  /** A parenthesised balanced group is never cut, whatever `∧` it holds. */
  lemma WrappedUncut(b: string, t: string)
    requires Balanced(b)
    ensures Cut("(" + b + ")" + t, 0) == Glue([], "(" + b + ")", Cut(t, 0))
  {
    var rest := Cut(t, 0);
    assert Cut(b + (")" + t), 1) == Glue([], b + ")", rest) by {
      assert StaysAbove(b, 0);
      StaysAboveAbove(b, 0);
      CutAbove(b, ")" + t, 1);
      AfterBalance(b, 1);
      CutCons(')', t, 1);
      GlueChar([], b, [')'], rest);
    }
    assert "(" + b + ")" + t == ['('] + (b + (")" + t));
    CutCons('(', b + (")" + t), 0);
    GlueChar([], ['('], b + ")", rest);
    assert ['('] + (b + ")") == "(" + b + ")";
  }

  /** Text without `∧` and without parentheses joins the current part whole. */
  lemma {:induction false} CutPlain(a: string, t: string, depth: int)
    requires '∧' !in a && '(' !in a && ')' !in a
    ensures Cut(a + t, depth) == Glue([], a, Cut(t, depth))
    decreases |a|
  {
    if a == [] {
      assert a + t == t;
      GlueNone(Cut(t, depth));
    } else {
      assert a[0] in a && Delta(a[0]) == 0;
      assert '∧' !in a[1..] && '(' !in a[1..] && ')' !in a[1..];
      CutPlain(a[1..], t, depth);
      var u := a[1..] + t;
      assert a + t == [a[0]] + u;
      GlueStep(a, u, depth, Cut(t, depth));
    }
  }

  /** The example of the documentation of `quebrar_condicoes`, `A ∧ (B ∧ C)`, for any name `a` and
      any balanced `m`: an `∧` inside the parentheses is no cut, and the two parts keep their
      spaces. */
  lemma CutNested(a: string, m: string)
    requires '∧' !in a && '(' !in a && ')' !in a && Balanced(m)
    ensures Cut(a + " ∧ " + ("(" + m + ")"), 0) == [a + " ", " " + ("(" + m + ")")]
  {
    var g := "(" + m + ")";
    var r := Cut("∧ " + g, 0);
    CutConjunctGroup(m);
    assert '∧' !in a + " " && '(' !in a + " " && ')' !in a + " ";
    CutPlain(a + " ", "∧ " + g, 0);
    assert r[0] == [] && r[1..] == [" " + g];
    assert (a + " ") + [] == a + " ";
    assert a + " ∧ " + g == (a + " ") + ("∧ " + g) by {
      assert " ∧ " == " " + "∧ ";
    }
  }

  /** `∧ (m)`: a cut, then the parenthesised group whole. */
  lemma CutConjunctGroup(m: string)
    requires Balanced(m)
    ensures Cut("∧ " + ("(" + m + ")"), 0) == [[], " " + ("(" + m + ")")]
  {
    var g := "(" + m + ")";
    SpacedGroupUncut(m, g);
    assert "∧ " + g == ['∧'] + (" " + g);
    CutCons('∧', " " + g, 0);
  }

  /** A space and a parenthesised group make one part. */
  lemma SpacedGroupUncut(m: string, g: string)
    requires Balanced(m) && g == "(" + m + ")"
    ensures Cut(" " + g, 0) == [" " + g]
  {
    assert Cut(g, 0) == [g] by {
      WrappedUncut(m, []);
      assert g + [] == g;
      assert Cut([], 0) == [[]];
    }
    CutPlain(" ", g, 0);
  }

  // ---------------------------------------------------------------------------------------------
  // extrair_conteudo_parenteses and remover_parenteses_externos

  /** What `extrair_conteudo_parenteses(s, inicio)` returns: the index at which the count started
      before `s[inicio]` first comes back to zero, and the text between `inicio` and that index
      (empty when `s[inicio]` is no parenthesis and the index is `inicio` itself). */
  function Enclosed(s: string, start: nat): (r: Result<(string, nat), Failure>)
    ensures r.Ok? ==> start <= r.value.1 < |s| && |r.value.0| < |s|
  {
    var j := if start <= |s| then FirstZero(s, start, 0) else |s|;
    if j == |s| then Err(UnbalancedParentheses)
    else Ok((if start < j then s[start + 1..j] else [], j))
  }

  /** `extrair_conteudo_parenteses(s, inicio)` */
  method ExtractContent(s: string, start: nat) returns (r: Result<(string, nat), Failure>)
    ensures r == Enclosed(s, start)
  {
    var count := 0;
    var i := start;
    while i < |s|
      invariant start <= i && (start <= |s| ==> i <= |s| && FirstZero(s, i, count) == FirstZero(s, start, 0))
      decreases |s| - i
    {
      if s[i] == '(' {
        count := count + 1;
      } else if s[i] == ')' {
        count := count - 1;
      }
      if count == 0 {
        return Ok((if start < i then s[start + 1..i] else [], i));
      }
      i := i + 1;
    }
    return Err(UnbalancedParentheses);
  }

  /** The index found is the first after `inicio` at which the count is zero; when there is none
      the call fails. */
  lemma EnclosedSpec(s: string, start: nat)
    requires start <= |s|
    ensures Enclosed(s, start).Ok? ==>
      var j := Enclosed(s, start).value.1;
      Balance(s[start..j + 1]) == 0 && forall k :: start < k <= j ==> Balance(s[start..k]) != 0
    ensures Enclosed(s, start).Err? ==> forall k :: start < k <= |s| ==> Balance(s[start..k]) != 0
  {
    FirstZeroSpec(s, start, 0);
  }

  /** The group opened at `inicio` is read back: the text between a `(` and the `)` that closes
      it, and the index of that `)`. */
  lemma EnclosedGroup(p: string, b: string, t: string)
    requires Balanced(b)
    ensures var s := p + "(" + b + ")" + t;
      Enclosed(s, |p|) == Ok((b, |p| + |b| + 1))
  {
    var s := p + "(" + b + ")" + t;
    var i := |p| + 1;
    assert s[|p|] == '(' && s[i..i + |b|] == b && s[i + |b|] == ')';
    FirstZeroSkipsBalanced(s, i, b, 1);
    assert FirstZero(s, |p|, 0) == FirstZero(s, i, 1);
    assert FirstZero(s, i + |b|, 1) == i + |b|;
  }

  /** What `remover_parenteses_externos(s)` returns: while the text starts with `(`, ends with `)`
      and that first `(` is closed by the last `)`, the inside, stripped. */
  function Unwrap(s: string): (r: Result<string, Failure>)
    ensures r.Ok? ==> |r.value| <= |s|
    decreases |s|
  {
    if !(StartsWith(s, "(") && EndsWith(s, ")")) then Ok(s)
    else
      match Enclosed(s, 0)
      case Err(e) => Err(e)
      case Ok(found) => if found.1 == |s| - 1 then Unwrap(Strip(found.0)) else Ok(s)
  }

  /** `remover_parenteses_externos(s)` */
  method RemoveOuter(text: string) returns (r: Result<string, Failure>)
    ensures r == Unwrap(text)
  {
    var s := text;
    while StartsWith(s, "(") && EndsWith(s, ")")
      invariant Unwrap(s) == Unwrap(text)
      decreases |s|
    {
      var found := ExtractContent(s, 0);
      if found.Err? {
        return Err(found.error);
      }
      var (content, close) := found.value;
      if close == |s| - 1 {
        s := Strip(content);
      } else {
        return Ok(s);
      }
    }
    return Ok(s);
  }

  /** The text returned has no outer pair left to remove: either it is not enclosed in
      parentheses at both ends, or its first `(` closes before its last character. */
  lemma {:induction false} UnwrapStops(s: string)
    ensures Unwrap(s).Ok? ==>
      var r := Unwrap(s).value;
      !(StartsWith(r, "(") && EndsWith(r, ")")) || (Enclosed(r, 0).Ok? && Enclosed(r, 0).value.1 < |r| - 1)
    decreases |s|
  {
    if StartsWith(s, "(") && EndsWith(s, ")") && Enclosed(s, 0).Ok? && Enclosed(s, 0).value.1 == |s| - 1 {
      UnwrapStops(Strip(Enclosed(s, 0).value.0));
    }
  }

  /** Removing the outer parentheses twice is removing them once. */
  lemma UnwrapIdempotent(s: string)
    requires Unwrap(s).Ok?
    ensures Unwrap(Unwrap(s).value) == Unwrap(s)
  {
    UnwrapStops(s);
  }

  /** A balanced text in parentheses loses them, and its surrounding spaces. */
  lemma UnwrapGroup(b: string)
    requires Balanced(b)
    ensures Unwrap("(" + b + ")") == Unwrap(Strip(b))
  {
    var s := "(" + b + ")";
    EnclosedGroup([], b, []);
    assert [] + "(" + b + ")" + [] == s;
    assert s[..1] == "(" && s[|s| - 1..] == ")";
  }

  // ---------------------------------------------------------------------------------------------
  // processar

  /** The line boundaries at which Python's `str.splitlines` cuts. */
  predicate IsLineBreak(c: char)
  {
    ('\n' <= c <= '\r') || ('\U{1C}' <= c <= '\U{1E}') || c == '\U{85}' || c == '\U{2028}' || c == '\U{2029}'
  }

  /** `''.join(s.splitlines())`: the text without its line breaks. */
  function JoinLines(s: string): (r: string)
    ensures |r| <= |s|
  {
    if s == [] then [] else (if IsLineBreak(s[0]) then [] else [s[0]]) + JoinLines(s[1..])
  }

  /** `s.index("](")` searched from `from`: the first index at or after `from` where `](` starts,
      or -1 where `index` raises. */
  function FindPair(s: string, from: nat): (r: int)
    ensures r == -1 || (from <= r && r + 1 < |s| && s[r] == ']' && s[r + 1] == '(')
    decreases |s| - from
  {
    if from + 1 >= |s| then -1
    else if s[from] == ']' && s[from + 1] == '(' then from
    else FindPair(s, from + 1)
  }

  /** The first `⨝` or `X` read, from `i` on, while the count of the parentheses before it,
      started at `depth`, is zero. */
  function TopOperator(s: string, i: nat, depth: int): (r: Option<nat>)
    requires i <= |s|
    ensures r.Some? ==> i <= r.value < |s| && (s[r.value] == '⨝' || s[r.value] == 'X')
    decreases |s| - i
  {
    if i == |s| then None
    else if depth == 0 && (s[i] == '⨝' || s[i] == 'X') then Some(i)
    else TopOperator(s, i + 1, depth + Delta(s[i]))
  }

  /** One selection node per condition, labelled `σ` and the condition stripped, the first
      condition outermost, over `e`. */
  function Chain(conds: seq<string>, e: Node): Node
  {
    if conds == [] then e else Node("σ " + Strip(conds[0]), [Chain(conds[1..], e)])
  }

  /** What `processar(s)` returns, or the exception it raises. */
  function Process(s: string): (r: Result<Node, Failure>)
    decreases |s|, 1
  {
    match Unwrap(JoinLines(Strip(s)))
    case Err(e) => Err(e)
    case Ok(t) =>
      if StartsWith(t, "𝝿[") || StartsWith(t, "𝛔[") then ProcessUnary(t) else ProcessBinary(t)
  }

  /** `processar` on unwrapped text that starts with a projection or a selection. */
  function ProcessUnary(t: string): (r: Result<Node, Failure>)
    decreases |t|, 0
  {
    var idx := FindPair(t, 0);
    if idx < 0 then Err(MissingOperand)
    else
      match Enclosed(t, idx + 1)
      case Err(e) => Err(e)
      case Ok(found) =>
        var parameter := if 2 <= idx then t[2..idx] else [];
        match Process(found.0)
        case Err(e) => Err(e)
        case Ok(sub) =>
          if StartsWith(t, "𝝿[") then Ok(Node("π " + parameter, [sub]))
          else Ok(Chain(Cut(parameter, 0), sub))
  }

  /** `processar` on any other unwrapped text: split at the first top-level join or product, or a
      leaf. */
  function ProcessBinary(t: string): (r: Result<Node, Failure>)
    decreases |t|, 0
  {
    match TopOperator(t, 0, 0)
    case None => Ok(Node(t, []))
    case Some(i) =>
      match Process(Strip(t[..i]))
      case Err(e) => Err(e)
      case Ok(left) =>
        match Process(Strip(t[i + 1..]))
        case Err(e) => Err(e)
        case Ok(right) => Ok(Node("X", [left, right]))
  }

  /** The loop of `processar` that wraps the operand in one selection node per condition, the
      last condition innermost. */
  method BuildChain(conds: seq<string>, e: Node) returns (node: Node)
    ensures node == Chain(conds, e)
  {
    node := e;
    var k := |conds|;
    while k > 0
      invariant 0 <= k <= |conds| && node == Chain(conds[k..], e)
    {
      k := k - 1;
      assert conds[k..][1..] == conds[k + 1..];
      node := Node("σ " + Strip(conds[k]), [node]);
    }
    assert conds[0..] == conds;
  }

  /** `processar(s)` */
  method Processar(text: string) returns (r: Result<Node, Failure>)
    ensures r == Process(text)
    decreases |text|, 1
  {
    var unwrapped := RemoveOuter(JoinLines(Strip(text)));
    if unwrapped.Err? {
      return Err(unwrapped.error);
    }
    var s := unwrapped.value;
    if StartsWith(s, "𝝿[") || StartsWith(s, "𝛔[") {
      r := ProcessOperator(s);
    } else {
      r := ProcessRest(s);
    }
  }

  /** The branch of `processar` for a projection or a selection. */
  method ProcessOperator(s: string) returns (r: Result<Node, Failure>)
    ensures r == ProcessUnary(s)
    decreases |s|, 0
  {
    var idx := FindPair(s, 0);
    if idx < 0 {
      return Err(MissingOperand);
    }
    var parameter := if 2 <= idx then s[2..idx] else [];
    var found := ExtractContent(s, idx + 1);
    if found.Err? {
      return Err(found.error);
    }
    var sub := Processar(found.value.0);
    if sub.Err? {
      return sub;
    }
    if !StartsWith(s, "𝝿[") {
      var conds := SplitConditions(parameter);
      var node := BuildChain(conds, sub.value);
      return Ok(node);
    } else {
      return Ok(Node("π " + parameter, [sub.value]));
    }
  }

  /** The branch of `processar` for a binary operator or a leaf. */
  method ProcessRest(s: string) returns (r: Result<Node, Failure>)
    ensures r == ProcessBinary(s)
    decreases |s|, 0
  {
    var depth := 0;
    for i := 0 to |s|
      invariant TopOperator(s, i, depth) == TopOperator(s, 0, 0)
    {
      if s[i] == '(' {
        depth := depth + 1;
      } else if s[i] == ')' {
        depth := depth - 1;
      } else if depth == 0 && (s[i] == '⨝' || s[i] == 'X') {
        var left := Processar(Strip(s[..i]));
        if left.Err? {
          return left;
        }
        var right := Processar(Strip(s[i + 1..]));
        if right.Err? {
          return right;
        }
        return Ok(Node("X", [left.value, right.value]));
      }
    }
    return Ok(Node(s, []));
  }

  // ---------------------------------------------------------------------------------------------
  // What processar builds

  /** Every node the builder makes has a known arity: a leaf, a selection or projection over one
      child, or a join over two. */
  predicate Shaped(n: Node)
    decreases n
  {
    (|n.children| == 0
     || (|n.children| == 1 && |n.op| >= 1 && (n.op[0] == 'σ' || n.op[0] == 'π'))
     || (|n.children| == 2 && n.op == "X"))
    && forall k :: 0 <= k < |n.children| ==> Shaped(n.children[k])
  }

  lemma {:induction false} ChainShaped(conds: seq<string>, e: Node)
    requires Shaped(e)
    ensures Shaped(Chain(conds, e))
    decreases |conds|
  {
    if conds != [] {
      ChainShaped(conds[1..], e);
    }
  }

  /** Whatever the text, a tree `processar` returns is shaped. */
  lemma {:induction false} ProcessShaped(s: string)
    ensures Process(s).Ok? ==> Shaped(Process(s).value)
    decreases |s|, 1
  {
    match Unwrap(JoinLines(Strip(s)))
    case Err(_) =>
    case Ok(t) =>
      if StartsWith(t, "𝝿[") || StartsWith(t, "𝛔[") {
        UnaryShaped(t);
      } else {
        BinaryShaped(t);
      }
  }

  lemma {:induction false} UnaryShaped(t: string)
    ensures ProcessUnary(t).Ok? ==> Shaped(ProcessUnary(t).value)
    decreases |t|, 0
  {
    var idx := FindPair(t, 0);
    if idx >= 0 && Enclosed(t, idx + 1).Ok? {
      var found := Enclosed(t, idx + 1).value;
      var parameter := if 2 <= idx then t[2..idx] else [];
      ProcessShaped(found.0);
      if Process(found.0).Ok? {
        ChainShaped(Cut(parameter, 0), Process(found.0).value);
      }
    }
  }

  lemma {:induction false} BinaryShaped(t: string)
    ensures ProcessBinary(t).Ok? ==> Shaped(ProcessBinary(t).value)
    decreases |t|, 0
  {
    match TopOperator(t, 0, 0)
    case None =>
    case Some(i) =>
      ProcessShaped(Strip(t[..i]));
      ProcessShaped(Strip(t[i + 1..]));
  }

  /** Text without line breaks is left as it is when they are removed. */
  lemma {:induction false} JoinLinesKeeps(s: string)
    requires forall k :: 0 <= k < |s| ==> !IsLineBreak(s[k])
    ensures JoinLines(s) == s
  {
    if s != [] {
      JoinLinesKeeps(s[1..]);
    }
  }

  /** The search for `](` passes over a stretch that holds none. */
  lemma {:induction false} FindPairSkip(s: string, from: nat, i: nat)
    requires from <= i && i + 1 < |s| && s[i] == ']' && s[i + 1] == '('
    requires forall k :: from <= k < i ==> !(s[k] == ']' && s[k + 1] == '(')
    ensures FindPair(s, from) == i
    decreases i - from
  {
    if from < i {
      FindPairSkip(s, from + 1, i);
    }
  }

  /** The search for a top-level operator passes over a stretch without parentheses or operators. */
  lemma {:induction false} TopOperatorSkip(s: string, i: nat, j: nat, depth: int)
    requires i <= j <= |s|
    requires forall k :: i <= k < j ==> s[k] !in "()⨝X"
    ensures TopOperator(s, i, depth) == TopOperator(s, j, depth)
    decreases j - i
  {
    if i < j {
      assert s[i] !in "()⨝X";
      TopOperatorSkip(s, i + 1, j, depth);
    }
  }

  /** No `](` inside a parameter. */
  predicate NoPair(c: string)
  {
    forall k :: 0 <= k < |c| - 1 ==> !(c[k] == ']' && c[k + 1] == '(')
  }

  predicate NoLineBreak(s: string)
  {
    forall k :: 0 <= k < |s| ==> !IsLineBreak(s[k])
  }

  /** A projection or a selection over a parenthesised balanced operand becomes one projection
      node labelled with its attributes, or a chain of selection nodes, one per condition cut at
      the top-level conjunctions, over the tree of the operand. */
  lemma ProcessOperatorText(op: char, c: string, b: string)
    requires op == '𝝿' || op == '𝛔'
    requires NoPair(c) && NoLineBreak(c) && NoLineBreak(b) && Balanced(b)
    ensures Process([op] + "[" + c + "](" + b + ")") ==
      match Process(b)
      case Err(e) => Err(e)
      case Ok(sub) => Ok(if op == '𝝿' then Node("π " + c, [sub]) else Chain(Cut(c, 0), sub))
  {
    var t := [op] + "[" + c + "](" + b + ")";
    OperatorKept(op, c, b);
    OperatorPieces(op, c, b);
    UnaryAssembly(t, op, c, b);
  }

  /** Stripping, joining lines and unwrapping leave the operator text as it is. */
  lemma OperatorKept(op: char, c: string, b: string)
    requires op == '𝝿' || op == '𝛔'
    requires NoLineBreak(c) && NoLineBreak(b)
    ensures var t := [op] + "[" + c + "](" + b + ")";
      Unwrap(JoinLines(Strip(t))) == Ok(t)
      && (StartsWith(t, "𝝿[") || StartsWith(t, "𝛔[")) && (StartsWith(t, "𝝿[") <==> op == '𝝿')
  {
    var t := [op] + "[" + c + "](" + b + ")";
    OperatorStripped(t, op, c, b);
    OperatorUnbroken(t, op, c, b);
    OperatorStart(t, op, c, b);
  }

  lemma OperatorStripped(t: string, op: char, c: string, b: string)
    requires t == [op] + "[" + c + "](" + b + ")" && !IsSpace(op)
    ensures Strip(t) == t
  {
    assert t[0] == op && t[|t| - 1] == ')';
    StripStripped(t);
  }

  lemma OperatorStart(t: string, op: char, c: string, b: string)
    requires t == [op] + "[" + c + "](" + b + ")" && (op == '𝝿' || op == '𝛔')
    ensures Unwrap(t) == Ok(t)
    ensures (StartsWith(t, "𝝿[") || StartsWith(t, "𝛔[")) && (StartsWith(t, "𝝿[") <==> op == '𝝿')
  {
    assert t[0] == op != '(';
    assert t[..2] == [op, '['];
  }

  lemma OperatorUnbroken(t: string, op: char, c: string, b: string)
    requires t == [op] + "[" + c + "](" + b + ")" && !IsLineBreak(op)
    requires NoLineBreak(c) && NoLineBreak(b)
    ensures JoinLines(t) == t
  {
    forall k | 0 <= k < |t|
      ensures !IsLineBreak(t[k])
    {
      if 2 <= k < 2 + |c| {
        assert t[k] == c[k - 2];
      } else if 4 + |c| <= k < 4 + |c| + |b| {
        assert t[k] == b[k - 4 - |c|];
      }
    }
    JoinLinesKeeps(t);
  }

  /** Where `processar` finds the parameter and the operand of the operator text. */
  lemma OperatorPieces(op: char, c: string, b: string)
    requires NoPair(c) && Balanced(b)
    ensures var t := [op] + "[" + c + "](" + b + ")";
      FindPair(t, 0) == 2 + |c| && Enclosed(t, 3 + |c|) == Ok((b, 4 + |c| + |b|)) && t[2..2 + |c|] == c
  {
    var p := [op] + "[" + c + "]";
    var t := p + "(" + b + ")";
    assert t == [op] + "[" + c + "](" + b + ")";
    var idx := 2 + |c|;
    assert FindPair(t, 0) == idx by {
      forall k | 0 <= k < idx
        ensures !(t[k] == ']' && t[k + 1] == '(')
      {
        if 2 <= k < idx - 1 {
          assert t[k] == c[k - 2] && t[k + 1] == c[k - 1];
        }
      }
      FindPairSkip(t, 0, idx);
    }
    assert Enclosed(t, idx + 1) == Ok((b, idx + 1 + |b| + 1)) by {
      EnclosedGroup(p, b, []);
      assert p + "(" + b + ")" + [] == t;
    }
    assert t[2..idx] == c;
  }

  lemma UnaryAssembly(t: string, op: char, c: string, b: string)
    requires Unwrap(JoinLines(Strip(t))) == Ok(t)
    requires (StartsWith(t, "𝝿[") || StartsWith(t, "𝛔[")) && (StartsWith(t, "𝝿[") <==> op == '𝝿')
    requires FindPair(t, 0) == 2 + |c| && Enclosed(t, 3 + |c|) == Ok((b, 4 + |c| + |b|)) && t[2..2 + |c|] == c
    ensures Process(t) ==
      match Process(b)
      case Err(e) => Err(e)
      case Ok(sub) => Ok(if op == '𝝿' then Node("π " + c, [sub]) else Chain(Cut(c, 0), sub))
  {
    assert Process(t) == ProcessUnary(t);
  }

  /** A name, as `processar` leaves it: no parentheses, joins, products, brackets or line breaks,
      and no whitespace at either end. */
  predicate Name(s: string)
  {
    s != [] && Stripped(s) && NoLineBreak(s) && forall k :: 0 <= k < |s| ==> s[k] !in "()⨝X["
  }

  /** A name is a leaf. */
  lemma ProcessName(n: string)
    requires Name(n)
    ensures Process(n) == Ok(Node(n, []))
  {
    StripStripped(n);
    JoinLinesKeeps(n);
    assert n[0] != '(';
    assert Unwrap(n) == Ok(n);
    assert !StartsWith(n, "𝝿[") && !StartsWith(n, "𝛔[") by {
      if |n| >= 2 {
        assert n[1] != '[';
      }
    }
    TopOperatorSkip(n, 0, |n|, 0);
  }

  /** Two names around a join or a product, with or without spaces, become a product node over
      two leaves. Since the scan does not look at word boundaries, an `X` inside a relation name
      (`TAXA`) splits it in the same way. */
  lemma ProcessNames(l: string, a: string, op: char, b: string, r: string)
    requires Name(l) && Name(r) && (op == '⨝' || op == 'X')
    requires AllSpace(a) && NoLineBreak(a) && AllSpace(b) && NoLineBreak(b)
    ensures Process(l + a + [op] + b + r) == Ok(Node("X", [Node(l, []), Node(r, [])]))
  {
    var t := l + a + [op] + b + r;
    var i := |l| + |a|;
    assert Unwrap(JoinLines(Strip(t))) == Ok(t) && !StartsWith(t, "𝝿[") && !StartsWith(t, "𝛔[") by {
      NamesStripped(t, l, a, op, b, r);
      NamesUnbroken(t, l, a, op, b, r);
      NamesStart(t, l, a, op, b, r);
    }
    assert TopOperator(t, 0, 0) == Some(i) && Strip(t[..i]) == l && Strip(t[i + 1..]) == r by {
      NamesSplit(t, i, l, a, op, b, r);
    }
    assert Process(l) == Ok(Node(l, [])) && Process(r) == Ok(Node(r, [])) by {
      ProcessName(l);
      ProcessName(r);
    }
    BinaryAssembly(t, i, l, r);
  }

  lemma NamesStripped(t: string, l: string, a: string, op: char, b: string, r: string)
    requires t == l + a + [op] + b + r && Name(l) && Name(r)
    ensures Strip(t) == t
  {
    assert t[0] == l[0] && t[|t| - 1] == r[|r| - 1];
    StripStripped(t);
  }

  lemma NamesUnbroken(t: string, l: string, a: string, op: char, b: string, r: string)
    requires t == l + a + [op] + b + r && Name(l) && Name(r) && (op == '⨝' || op == 'X')
    requires NoLineBreak(a) && NoLineBreak(b)
    ensures JoinLines(t) == t
  {
    var i := |l| + |a|;
    forall k | 0 <= k < |t|
      ensures !IsLineBreak(t[k])
    {
      if k < |l| {
        assert t[k] == l[k];
      } else if k < i {
        assert t[k] == a[k - |l|];
      } else if i < k <= i + |b| {
        assert t[k] == b[k - i - 1];
      } else if i + |b| < k {
        assert t[k] == r[k - i - 1 - |b|];
      }
    }
    JoinLinesKeeps(t);
  }

  lemma NamesStart(t: string, l: string, a: string, op: char, b: string, r: string)
    requires t == l + a + [op] + b + r && Name(l) && AllSpace(a) && (op == '⨝' || op == 'X')
    ensures Unwrap(t) == Ok(t) && !StartsWith(t, "𝝿[") && !StartsWith(t, "𝛔[")
  {
    assert t[0] == l[0] != '(';
    if |l| >= 2 {
      assert t[1] == l[1] != '[';
    } else if |a| >= 1 {
      assert t[1] == a[0] && IsSpace(a[0]);
    } else {
      assert t[1] == op;
    }
  }

  /** The scan stops at the operator, and the two sides strip down to the names. */
  lemma NamesSplit(t: string, i: nat, l: string, a: string, op: char, b: string, r: string)
    requires t == l + a + [op] + b + r && i == |l| + |a|
    requires Name(l) && Name(r) && (op == '⨝' || op == 'X') && AllSpace(a) && AllSpace(b)
    ensures i < |t| && TopOperator(t, 0, 0) == Some(i) && Strip(t[..i]) == l && Strip(t[i + 1..]) == r
  {
    NamesScan(t, i, l, a, op, b, r);
    NamesSides(t, i, l, a, op, b, r);
  }

  lemma NamesScan(t: string, i: nat, l: string, a: string, op: char, b: string, r: string)
    requires t == l + a + [op] + b + r && i == |l| + |a|
    requires Name(l) && (op == '⨝' || op == 'X') && AllSpace(a)
    ensures TopOperator(t, 0, 0) == Some(i)
  {
    forall k | 0 <= k < i
      ensures t[k] !in "()⨝X"
    {
      if k < |l| {
        assert t[k] == l[k];
      } else {
        assert t[k] == a[k - |l|] && IsSpace(a[k - |l|]);
      }
    }
    TopOperatorSkip(t, 0, i, 0);
    assert t[i] == op;
  }

  lemma NamesSides(t: string, i: nat, l: string, a: string, op: char, b: string, r: string)
    requires t == l + a + [op] + b + r && i == |l| + |a|
    requires Name(l) && Name(r) && AllSpace(a) && AllSpace(b)
    ensures i < |t| && Strip(t[..i]) == l && Strip(t[i + 1..]) == r
  {
    assert t[..i] == [] + l + a;
    StripPadded([], l, a);
    assert t[i + 1..] == b + r + [];
    StripPadded(b, r, []);
  }

  lemma BinaryAssembly(t: string, i: nat, l: string, r: string)
    requires Unwrap(JoinLines(Strip(t))) == Ok(t) && !StartsWith(t, "𝝿[") && !StartsWith(t, "𝛔[")
    requires TopOperator(t, 0, 0) == Some(i) && Strip(t[..i]) == l && Strip(t[i + 1..]) == r
    requires Process(l) == Ok(Node(l, [])) && Process(r) == Ok(Node(r, []))
    ensures Process(t) == Ok(Node("X", [Node(l, []), Node(r, [])]))
  {
    assert Process(t) == ProcessBinary(t);
  }
}

/**
 * `remover_joins`: every join `(l) ⨝[c] (r)` becomes the product `(l' X r')` of its rewritten
 * operands, and the collected conditions are added to the first selection, or to a new selection
 * around the whole expression when there is none.
 */
module AlgebraJoins {
  import opened Text
  import opened Parens
  import opened AlgebraFormat
  import opened AlgebraClauses
  import opened AlgebraUnnest
  import TreeBuilder

  /** Where the scan goes on after a parenthesised group that is not the left operand of a join:
      at the index the group ended at before its inside was rewritten, as the source does, or just
      after the rewritten group. */
  datatype Resume = AsWritten | AfterRewritten

  /** The two `ValueError`s of `substituir_joins`, and the error `padrao.sub` raises in
      `inserir_condicoes` when the new condition does not read as a replacement template. */
  datatype JoinError = UnclosedCondition | MalformedJoin | BadTemplate

  /** The rewritten text and the conditions collected on the way, in the order they were met. */
  datatype Rewrite = Rewrite(text: string, conditions: seq<string>)

  /** How many times `c` occurs in `s`. */
  function Tally(s: string, c: char): nat
  {
    if s == [] then 0 else (if s[0] == c then 1 else 0) + Tally(s[1..], c)
  }

  lemma {:induction false} TallyConcat(a: string, b: string, c: char)
    ensures Tally(a + b, c) == Tally(a, c) + Tally(b, c)
  {
    if a != [] {
      assert (a + b)[1..] == a[1..] + b;
      TallyConcat(a[1..], b, c);
    } else {
      assert a + b == b;
    }
  }

  /** The number of `(` from position `i` on. */
  function OpensFrom(s: string, i: nat): nat
  {
    if i < |s| then Tally(s[i..], '(') else 0
  }

  /** `while j < len(expr) and expr[j].isspace(): j += 1` */
  function SkipSpaces(s: string, j: nat): (k: nat)
    requires j <= |s|
    ensures j <= k <= |s| && (k < |s| ==> !IsSpace(s[k]))
    decreases |s| - j
  {
    if j < |s| && IsSpace(s[j]) then SkipSpaces(s, j + 1) else j
  }

  /** `j < len(expr) and expr[j:j+2] == '⨝['` */
  predicate JoinAt(s: string, j: nat)
  {
    j + 2 <= |s| && s[j] == '⨝' && s[j + 1] == '['
  }

  /** `substituir_joins(e)`, with the conditions it appends to `condicoes`. */
  function Substitute(e: string, resume: Resume): (r: Result<Rewrite, JoinError>)
    ensures r.Ok? ==> Tally(r.value.text, '(') <= Tally(e, '(') && Tally(r.value.text, '⨝') <= Tally(e, '⨝')
    decreases Tally(e, '('), 1, 0, 0, 0, 0
  {
    ScanJoins(e, 0, [], resume, Tally(e, '('))
  }

  /**
   * The loop of `substituir_joins` from index `i` of the current text `expr`, with `conds`
   * collected so far: characters other than `(` are passed over. `bound` caps the `(` of every
   * text met, which is what makes the recursion into groups terminate.
   */
  function ScanJoins(expr: string, i: nat, conds: seq<string>, resume: Resume, ghost bound: nat)
    : (r: Result<Rewrite, JoinError>)
    requires Tally(expr, '(') <= bound
    ensures r.Ok? ==> Tally(r.value.text, '(') <= Tally(expr, '(') && Tally(r.value.text, '⨝') <= Tally(expr, '⨝')
    decreases bound, 0, Tally(expr, '⨝'), OpensFrom(expr, i), |expr| - i, 1
  {
    if i >= |expr| then Ok(Rewrite(expr, conds))
    else if expr[i] != '(' then
      SuffixTally(expr, i, i + 1);
      ScanJoins(expr, i + 1, conds, resume, bound)
    else RewriteGroup(expr, i, conds, resume, bound)
  }

  /** What follows a group: not a join; a join whose `]` or right operand is missing; or a join,
      with its condition stripped and the bounds of its right operand. */
  datatype JoinShape = NotJoin | Broken(error: JoinError) | Joined(condition: string, start: nat, end: nat)

  /** What follows the group that ends at `left`. */
  function ShapeAfter(expr: string, left: nat): (r: JoinShape)
    requires left <= |expr|
    ensures r.Joined? ==>
      left < r.start < r.end <= |expr| && expr[r.start] == '('
      && r.end == GroupEnd(expr, r.start) && Tally(expr[left..r.start], '⨝') >= 1
  {
    var j := SkipSpaces(expr, left);
    if !JoinAt(expr, j) then NotJoin
    else
      var close := FindChar(expr, ']', j + 2);
      if close == -1 then Broken(UnclosedCondition)
      else
        var k := SkipSpaces(expr, close + 1);
        if k >= |expr| || expr[k] != '(' then Broken(MalformedJoin)
        else
          JoinMark(expr, left, j, k);
          Joined(Strip(expr[j + 2..close]), k, GroupEnd(expr, k))
  }

  /** The group at `i`: a join is rewritten into a product and the scan starts over; any other
      group has its inside rewritten and the scan goes on as `resume` says. */
  function RewriteGroup(expr: string, i: nat, conds: seq<string>, resume: Resume, ghost bound: nat)
    : (r: Result<Rewrite, JoinError>)
    requires Tally(expr, '(') <= bound && i < |expr| && expr[i] == '('
    ensures r.Ok? ==> Tally(r.value.text, '(') <= Tally(expr, '(') && Tally(r.value.text, '⨝') <= Tally(expr, '⨝')
    decreases bound, 0, Tally(expr, '⨝'), OpensFrom(expr, i), |expr| - i, 0
  {
    var left := GroupEnd(expr, i);
    GroupTally(expr, i, left);
    match ShapeAfter(expr, left)
    case Broken(e) => Err(e)
    case Joined(condition, k, right) =>
      GroupTally(expr, k, right);
      (match Substitute(Inner(expr[i..left]), resume)
       case Err(e) => Err(e)
       case Ok(l) =>
         (match Substitute(Inner(expr[k..right]), resume)
          case Err(e) => Err(e)
          case Ok(r) =>
            JoinShrinks(expr, i, left, k, right, l.text, r.text);
            ScanJoins(expr[..i] + "(" + l.text + " X " + r.text + ")" + expr[right..], 0,
              conds + [condition] + l.conditions + r.conditions, resume, bound)))
    case NotJoin =>
      match Substitute(Inner(expr[i..left]), resume)
      case Err(e) => Err(e)
      case Ok(t) =>
        var next := if resume == AsWritten then left else i + |t.text| + 2;
        NestShrinks(expr, i, left, t.text, next);
        ScanJoins(expr[..i] + "(" + t.text + ")" + expr[left..], next, conds + t.conditions, resume, bound)
  }

  /** The loop `while j < len(expr) and expr[j].isspace(): j += 1`. */
  method SkipSpacesFrom(expr: string, start: nat) returns (j: nat)
    requires start <= |expr|
    ensures j == SkipSpaces(expr, start)
  {
    j := start;
    while j < |expr| && IsSpace(expr[j])
      invariant start <= j <= |expr| && SkipSpaces(expr, j) == SkipSpaces(expr, start)
      decreases |expr| - j
    {
      j := j + 1;
    }
  }

  /** The part of the loop of `substituir_joins` that reads what follows the group ending at
      `left`: the spaces, `⨝[`, the condition up to `]`, the spaces and the right operand. */
  method ReadShape(expr: string, left: nat) returns (shape: JoinShape)
    requires left <= |expr|
    ensures shape == ShapeAfter(expr, left)
  {
    var j := SkipSpacesFrom(expr, left);
    if !JoinAt(expr, j) {
      return NotJoin;
    }
    var close := FindChar(expr, ']', j + 2);
    if close == -1 {
      return Broken(UnclosedCondition);
    }
    var condition := expr[j + 2..close];
    var k := SkipSpacesFrom(expr, close + 1);
    if k >= |expr| || expr[k] != '(' {
      return Broken(MalformedJoin);
    }
    var rightGroup, right := Subexpression(expr, k);
    shape := Joined(Strip(condition), k, right);
    ShapeOfJoin(expr, left, j, close, k);
  }

  /** `substituir_joins(e)`: the loop over `expr`, restarting after each join it rewrites. The
      scan goes on just after a rewritten group (see `SkipsSecondJoin` for the index the source
      uses there). */
  method SubstituteJoins(e: string) returns (r: Result<Rewrite, JoinError>)
    ensures r == Substitute(e, AfterRewritten)
    decreases Tally(e, '(')
  {
    var expr, conds := e, [];
    var i: nat := 0;
    while i < |expr|
      invariant Tally(expr, '(') <= Tally(e, '(')
      invariant ScanJoins(expr, i, conds, AfterRewritten, Tally(e, '(')) == Substitute(e, AfterRewritten)
      decreases Tally(expr, '⨝'), OpensFrom(expr, i), |expr| - i
    {
      if expr[i] != '(' {
        SuffixTally(expr, i, i + 1);
        i := i + 1;
        continue;
      }
      var group, left := Subexpression(expr, i);
      GroupTally(expr, i, left);
      var shape := ReadShape(expr, left);
      match shape
      case Broken(error) =>
        return Err(error);
      case Joined(condition, k, right) =>
        GroupTally(expr, k, right);
        var l := SubstituteJoins(Inner(group));
        if l.Err? {
          return Err(l.error);
        }
        var rr := SubstituteJoins(Inner(expr[k..right]));
        if rr.Err? {
          return Err(rr.error);
        }
        JoinStep(expr, i, conds, AfterRewritten, Tally(e, '('), left, condition, k, right, l.value, rr.value);
        expr := expr[..i] + "(" + l.value.text + " X " + rr.value.text + ")" + expr[right..];
        conds := conds + [condition] + l.value.conditions + rr.value.conditions;
        i := 0;
      case NotJoin =>
        var t := SubstituteJoins(Inner(group));
        if t.Err? {
          return Err(t.error);
        }
        NestStep(expr, i, conds, AfterRewritten, Tally(e, '('), left, t.value, i + |t.value.text| + 2);
        expr := expr[..i] + "(" + t.value.text + ")" + expr[left..];
        conds := conds + t.value.conditions;
        i := i + |t.value.text| + 2;
    }
    r := Ok(Rewrite(expr, conds));
  }

  /** `f'({c})'` for each collected condition. */
  function Parenthesised(conds: seq<string>): (r: seq<string>)
    ensures |r| == |conds|
  {
    if conds == [] then [] else ["(" + conds[0] + ")"] + Parenthesised(conds[1..])
  }

  /** `inserir_condicoes(expr)` with `condicoes` holding `conds`: their parenthesised conjunction is
      added after the condition of the first selection, the whole written through the replacement
      template of `padrao.sub`, or a new selection takes the whole text. */
  function InsertConditions(expr: string, conds: seq<string>): (r: Result<string, JoinError>)
    ensures conds == [] ==> r == Ok(expr)
    ensures r.Err? ==> r.error == BadTemplate && conds != [] && FirstSelection(expr, 0).Some?
  {
    if conds == [] then Ok(expr)
    else
      var total := JoinWith(Parenthesised(conds), " ∧ ");
      match FirstSelection(expr, 0)
      case Some(p) =>
        var j := LazyClose(expr, p + 2).value;
        var existing := expr[p + 2..j];
        (match Expand("𝛔[" + existing + " ∧ " + total + "](", expr[p..j + 2], existing)
         case Err(e) => Err(e)
         case Ok(replacement) => Ok(expr[..p] + replacement + expr[j + 2..]))
      case None => Ok("𝛔[" + total + "](" + expr + ")")
  }

  /** What `remover_joins(algebra)` returns, or the error it raises. */
  function JoinsRemoved(algebra: string): Result<string, JoinError>
  {
    match Substitute(Format(algebra), AfterRewritten)
    case Err(e) => Err(e)
    case Ok(rw) => InsertConditions(rw.text, rw.conditions)
  }

  /** `remover_joins(algebra)` */
  method RemoveJoins(algebra: string) returns (r: Result<string, JoinError>)
    ensures r == JoinsRemoved(algebra)
  {
    var rewritten := SubstituteJoins(Format(algebra));
    if rewritten.Err? {
      return Err(rewritten.error);
    }
    r := InsertConditions(rewritten.value.text, rewritten.value.conditions);
  }

  // ---------------------------------------------------------------------------------------------
  // The replacement template of `re.sub`: `\1` and `\g<…>` name a group, `\0` and three octal
  // digits a character, `\n` and the other escapes of Python strings a control character; an
  // escaped ASCII letter that is none of these, or a group the pattern does not have, raises.

  /** The character an escape `\a \b \f \n \r \t \v \\` stands for. */
  function EscapeOf(c: char): Option<char>
  {
    if c == 'a' then Some('\U{7}') else if c == 'b' then Some('\U{8}') else if c == 'f' then Some('\U{C}')
    else if c == 'n' then Some('\n') else if c == 'r' then Some('\r') else if c == 't' then Some('\t')
    else if c == 'v' then Some('\U{B}') else if c == '\\' then Some('\\') else None
  }

  predicate OctalDigit(c: char) { '0' <= c <= '7' }

  function Octal(c: char): nat
    requires OctalDigit(c)
  {
    c as int - '0' as int
  }

  predicate AllDigits(s: string) { forall k :: 0 <= k < |s| ==> AsciiDigit(s[k]) }

  /** The value of a run of decimal digits. */
  function DecimalValue(s: string): nat
    requires AllDigits(s)
  {
    if s == [] then 0 else DecimalValue(s[..|s| - 1]) * 10 + (s[|s| - 1] as int - '0' as int)
  }

  /** The first token of a non-empty template: the text it stands for and how many characters it
      takes up, for a match `whole` whose one group is `group`, or the error `re.sub` raises. */
  function TemplateToken(t: string, whole: string, group: string): (r: Result<(string, nat), JoinError>)
    requires t != []
    ensures r.Ok? ==> 1 <= r.value.1 <= |t|
    ensures r.Err? ==> r.error == BadTemplate
  {
    if t[0] != '\\' then Ok(([t[0]], 1))
    else if |t| == 1 then Err(BadTemplate)
    else if t[1] == 'g' then
      var close := FindChar(t, '>', 3);
      if |t| < 3 || t[2] != '<' || close == -1 then Err(BadTemplate)
      else
        var name := t[3..close];
        if name != [] && AllDigits(name) && DecimalValue(name) <= 1 then
          Ok((if DecimalValue(name) == 0 then whole else group, close + 1))
        else Err(BadTemplate)
    else if t[1] == '0' then
      if |t| > 2 && OctalDigit(t[2]) then
        if |t| > 3 && OctalDigit(t[3]) then Ok(([(Octal(t[2]) * 8 + Octal(t[3])) as char], 4))
        else Ok(([Octal(t[2]) as char], 3))
      else Ok((['\0'], 2))
    else if AsciiDigit(t[1]) then
      if |t| > 2 && AsciiDigit(t[2]) then
        if OctalDigit(t[1]) && OctalDigit(t[2]) && |t| > 3 && OctalDigit(t[3])
           && Octal(t[1]) * 64 + Octal(t[2]) * 8 + Octal(t[3]) <= 255
        then Ok(([(Octal(t[1]) * 64 + Octal(t[2]) * 8 + Octal(t[3])) as char], 4))
        else Err(BadTemplate)
      else if t[1] == '1' then Ok((group, 2))
      else Err(BadTemplate)
    else if EscapeOf(t[1]).Some? then Ok(([EscapeOf(t[1]).value], 2))
    else if AsciiLetter(t[1]) then Err(BadTemplate)
    else Ok((t[..2], 2))
  }

  /** `x` in front of a text, an error passed on as it is. */
  function Prefixed(x: string, r: Result<string, JoinError>): Result<string, JoinError>
  {
    match r
    case Err(e) => Err(e)
    case Ok(v) => Ok(x + v)
  }

  /** The text `re.sub` puts in place of the match `whole`, whose one group is `group`, for the
      template `t`, or the error it raises. */
  function Expand(t: string, whole: string, group: string): (r: Result<string, JoinError>)
    ensures r.Err? ==> r.error == BadTemplate
    decreases |t|
  {
    if t == [] then Ok([])
    else
      match TemplateToken(t, whole, group)
      case Err(e) => Err(e)
      case Ok((piece, n)) => Prefixed(piece, Expand(t[n..], whole, group))
  }

  // ---------------------------------------------------------------------------------------------
  // Counting: no rewrite adds a `(` or a `⨝`, and a join loses its `⨝`

  /** Dropping the first and last character keeps at most the occurrences that were there. */
  lemma InnerTally(g: string, c: char)
    ensures Tally(Inner(g), c) + (if g != [] && g[0] == c then 1 else 0) <= Tally(g, c)
  {
    if |g| >= 2 {
      assert g == [g[0]] + (Inner(g) + [g[|g| - 1]]);
      TallyConcat([g[0]], Inner(g) + [g[|g| - 1]], c);
      TallyConcat(Inner(g), [g[|g| - 1]], c);
    }
  }

  /** A later suffix holds no more occurrences than an earlier one. */
  lemma SuffixTally(s: string, a: nat, b: nat)
    requires a <= b <= |s|
    ensures OpensFrom(s, b) <= OpensFrom(s, a)
  {
    assert s[a..] == s[a..b] + s[b..];
    TallyConcat(s[a..b], s[b..], '(');
  }

  /** The inside of a group starting with `(` has fewer `(` than the whole text. */
  lemma GroupTally(expr: string, start: nat, end: nat)
    requires start < end <= |expr| && expr[start] == '('
    ensures Tally(Inner(expr[start..end]), '(') < Tally(expr, '(')
  {
    TallyCut(expr, start, end, end, end, '(');
    InnerTally(expr[start..end], '(');
  }

  lemma JoinMark(expr: string, left: nat, j: nat, k: nat)
    requires left <= j < k <= |expr| && expr[j] == '⨝'
    ensures Tally(expr[left..k], '⨝') >= 1
  {
    var m := expr[left..k];
    assert m[j - left] == '⨝';
    assert m == m[..j - left] + ([m[j - left]] + m[j - left + 1..]);
    TallyConcat(m[..j - left], [m[j - left]] + m[j - left + 1..], '⨝');
  }

  lemma JoinShrinks(expr: string, i: nat, left: nat, k: nat, right: nat, l: string, r: string)
    requires i < left <= k < right <= |expr|
    requires expr[i] == '(' && expr[k] == '(' && Tally(expr[left..k], '⨝') >= 1
    requires Tally(l, '(') <= Tally(Inner(expr[i..left]), '(') && Tally(l, '⨝') <= Tally(Inner(expr[i..left]), '⨝')
    requires Tally(r, '(') <= Tally(Inner(expr[k..right]), '(') && Tally(r, '⨝') <= Tally(Inner(expr[k..right]), '⨝')
    ensures var e := expr[..i] + "(" + l + " X " + r + ")" + expr[right..];
      Tally(e, '(') <= Tally(expr, '(') && Tally(e, '⨝') < Tally(expr, '⨝')
  {
    var p, g, h, s := expr[..i], expr[i..left], expr[k..right], expr[right..];
    InnerTally(g, '(');
    InnerTally(g, '⨝');
    InnerTally(h, '(');
    InnerTally(h, '⨝');
    TallyCut(expr, i, left, k, right, '(');
    TallyCut(expr, i, left, k, right, '⨝');
    TallyProduct(p, l, r, s);
  }

  lemma TallyCut(expr: string, i: nat, left: nat, k: nat, right: nat, x: char)
    requires i <= left <= k <= right <= |expr|
    ensures Tally(expr, x) == Tally(expr[..i], x) + Tally(expr[i..left], x) + Tally(expr[left..k], x)
      + Tally(expr[k..right], x) + Tally(expr[right..], x)
  {
    var p, g, m, h, s := expr[..i], expr[i..left], expr[left..k], expr[k..right], expr[right..];
    assert expr == p + (g + (m + (h + s)));
    TallyConcat(p, g + (m + (h + s)), x);
    TallyConcat(g, m + (h + s), x);
    TallyConcat(m, h + s, x);
    TallyConcat(h, s, x);
  }

  lemma TallyProduct(p: string, l: string, r: string, s: string)
    ensures var e := p + "(" + l + " X " + r + ")" + s;
      Tally(e, '(') == Tally(p, '(') + 1 + Tally(l, '(') + Tally(r, '(') + Tally(s, '(')
      && Tally(e, '⨝') == Tally(p, '⨝') + Tally(l, '⨝') + Tally(r, '⨝') + Tally(s, '⨝')
  {
    var e := p + "(" + l + " X " + r + ")" + s;
    assert e == p + ("(" + (l + (" X " + (r + (")" + s)))));
    forall x: char
      ensures Tally(e, x) == Tally(p, x) + Tally("(", x) + Tally(l, x) + Tally(" X ", x) + Tally(r, x)
        + Tally(")", x) + Tally(s, x)
    {
      TallyConcat(p, "(" + (l + (" X " + (r + (")" + s)))), x);
      TallyConcat("(", l + (" X " + (r + (")" + s))), x);
      TallyConcat(l, " X " + (r + (")" + s)), x);
      TallyConcat(" X ", r + (")" + s), x);
      TallyConcat(r, ")" + s, x);
      TallyConcat(")", s, x);
    }
  }

  lemma NestShrinks(expr: string, i: nat, left: nat, t: string, next: nat)
    requires i < left <= |expr| && expr[i] == '('
    requires Tally(t, '(') <= Tally(Inner(expr[i..left]), '(') && Tally(t, '⨝') <= Tally(Inner(expr[i..left]), '⨝')
    requires next == left || next == i + |t| + 2
    ensures var e := expr[..i] + "(" + t + ")" + expr[left..];
      Tally(e, '(') <= Tally(expr, '(') && Tally(e, '⨝') <= Tally(expr, '⨝')
      && OpensFrom(e, next) < OpensFrom(expr, i)
  {
    var p, g, rest := expr[..i], expr[i..left], expr[left..];
    assert expr == p + g + rest;
    NestTallies(p, g, rest, t);
    NestOpens(p, g, rest, t, next);
  }

  /** Replacing a group by a parenthesised text with no more `(` and `⨝` than its inside. */
  lemma NestTallies(p: string, g: string, rest: string, t: string)
    requires g != [] && g[0] == '('
    requires Tally(t, '(') <= Tally(Inner(g), '(') && Tally(t, '⨝') <= Tally(Inner(g), '⨝')
    ensures var e := p + "(" + t + ")" + rest;
      Tally(e, '(') <= Tally(p + g + rest, '(') && Tally(e, '⨝') <= Tally(p + g + rest, '⨝')
      && Tally(t, '(') < Tally(g, '(')
  {
    InnerTally(g, '(');
    InnerTally(g, '⨝');
    TallyConcat(p + g, rest, '(');
    TallyConcat(p, g, '(');
    TallyConcat(p + g, rest, '⨝');
    TallyConcat(p, g, '⨝');
    NestTally(p, t, rest);
  }

  lemma NestOpens(p: string, g: string, rest: string, t: string, next: nat)
    requires g != [] && Tally(t, '(') < Tally(g, '(')
    requires next == |p| + |g| || next == |p| + |t| + 2
    ensures OpensFrom(p + "(" + t + ")" + rest, next) < OpensFrom(p + g + rest, |p|)
  {
    var expr, e := p + g + rest, p + "(" + t + ")" + rest;
    assert OpensFrom(expr, |p|) == Tally(g, '(') + Tally(rest, '(') by {
      assert expr[|p|..] == g + rest;
      TallyConcat(g, rest, '(');
    }
    assert OpensFrom(e, |p| + 1) == Tally(t, '(') + Tally(rest, '(') by {
      AfterOpen(p, t, rest);
      TallyConcat(t, ")" + rest, '(');
      TallyConcat(")", rest, '(');
    }
    if next <= |e| {
      SuffixTally(e, |p| + 1, next);
    }
  }

  lemma AfterOpen(p: string, t: string, rest: string)
    ensures (p + "(" + t + ")" + rest)[|p| + 1..] == t + (")" + rest)
  {
    var e := p + "(" + t + ")" + rest;
    assert e == p + "(" + (t + (")" + rest));
  }

  lemma NestTally(p: string, t: string, rest: string)
    ensures var e := p + "(" + t + ")" + rest;
      Tally(e, '(') == Tally(p, '(') + 1 + Tally(t, '(') + Tally(rest, '(')
      && Tally(e, '⨝') == Tally(p, '⨝') + Tally(t, '⨝') + Tally(rest, '⨝')
  {
    var e := p + "(" + t + ")" + rest;
    assert e == p + ("(" + (t + (")" + rest)));
    forall x: char
      ensures Tally(e, x) == Tally(p, x) + Tally("(", x) + Tally(t, x) + Tally(")", x) + Tally(rest, x)
    {
      TallyConcat(p, "(" + (t + (")" + rest)), x);
      TallyConcat("(", t + (")" + rest), x);
      TallyConcat(t, ")" + rest, x);
      TallyConcat(")", rest, x);
    }
  }

  // ---------------------------------------------------------------------------------------------
  // One step of the scan

  /** A join at `i`: its operands are rewritten, the join becomes a product and the scan starts
      over with the condition collected. */
  lemma JoinStep(expr: string, i: nat, conds: seq<string>, resume: Resume, bound: nat,
                 left: nat, condition: string, k: nat, right: nat, l: Rewrite, r: Rewrite)
    requires Tally(expr, '(') <= bound && i < |expr| && expr[i] == '('
    requires left == GroupEnd(expr, i) && ShapeAfter(expr, left) == Joined(condition, k, right)
    requires Substitute(Inner(expr[i..left]), resume) == Ok(l)
    requires Substitute(Inner(expr[k..right]), resume) == Ok(r)
    ensures var e := expr[..i] + "(" + l.text + " X " + r.text + ")" + expr[right..];
      Tally(e, '(') <= bound && Tally(e, '⨝') < Tally(expr, '⨝')
      && ScanJoins(expr, i, conds, resume, bound)
         == ScanJoins(e, 0, conds + [condition] + l.conditions + r.conditions, resume, bound)
  {
    JoinShrinks(expr, i, left, k, right, l.text, r.text);
  }

  /** A group at `i` that is not the left operand of a join: its inside is rewritten and the scan
      goes on at `next`. */
  lemma NestStep(expr: string, i: nat, conds: seq<string>, resume: Resume, bound: nat,
                 left: nat, t: Rewrite, next: nat)
    requires Tally(expr, '(') <= bound && i < |expr| && expr[i] == '('
    requires left == GroupEnd(expr, i) && ShapeAfter(expr, left) == NotJoin
    requires Substitute(Inner(expr[i..left]), resume) == Ok(t)
    requires next == if resume == AsWritten then left else i + |t.text| + 2
    ensures var e := expr[..i] + "(" + t.text + ")" + expr[left..];
      Tally(e, '(') <= bound && Tally(e, '⨝') <= Tally(expr, '⨝') && OpensFrom(e, next) < OpensFrom(expr, i)
      && ScanJoins(expr, i, conds, resume, bound) == ScanJoins(e, next, conds + t.conditions, resume, bound)
  {
    NestShrinks(expr, i, left, t.text, next);
  }

  /** The scan passes over text without `(`. */
  lemma {:induction false} ScanSkip(expr: string, i: nat, m: nat, conds: seq<string>, resume: Resume, bound: nat)
    requires Tally(expr, '(') <= bound && i <= m <= |expr|
    requires forall p :: i <= p < m ==> expr[p] != '('
    ensures ScanJoins(expr, i, conds, resume, bound) == ScanJoins(expr, m, conds, resume, bound)
    decreases m - i
  {
    if i < m {
      ScanSkip(expr, i + 1, m, conds, resume, bound);
    }
  }

  /** Text without parentheses. */
  predicate Plain(s: string)
  {
    '(' !in s && ')' !in s
  }

  /** Text without `(` is left as it is, and no condition is collected. */
  lemma PlainUnchanged(x: string, resume: Resume)
    requires '(' !in x
    ensures Substitute(x, resume) == Ok(Rewrite(x, []))
  {
    ScanSkip(x, 0, |x|, [], resume, Tally(x, '('));
  }

  // ---------------------------------------------------------------------------------------------
  // Joins become products

  /** `(l) ⨝[c] (r)` as formatted text writes it. */
  function JoinText(l: string, c: string, r: string): string
  {
    "(" + l + ") ⨝[" + c + "] (" + r + ")"
  }

  lemma Assoc(a: string, b: string, c: string)
    ensures a + (b + c) == (a + b) + c
  {
  }

  lemma Pieces(a: string, b: string)
    ensures (a + b)[..|a|] == a && (a + b)[|a|..] == b
  {
  }

  /** `find` stops at the first occurrence after a stretch that has none. */
  lemma {:induction false} FindCharAfter(p: string, c: string, x: char, t: string)
    requires x !in c
    ensures FindChar(p + c + [x] + t, x, |p|) == |p| + |c|
    decreases |c|
  {
    if c != [] {
      assert p + c + [x] + t == (p + [c[0]]) + c[1..] + [x] + t;
      FindCharAfter(p + [c[0]], c[1..], x, t);
    }
  }

  /** A join of two operands without parentheses becomes their product, and its condition, stripped,
      is the one condition collected. */
  lemma JoinOfNames(l: string, c: string, r: string, resume: Resume)
    requires Plain(l) && Plain(r) && ']' !in c
    ensures Substitute(JoinText(l, c, r), resume) == Ok(Rewrite("(" + l + " X " + r + ")", [Strip(c)]))
  {
    BalancedPlain(l);
    BalancedPlain(r);
    JoinCut(l, c, r);
    JoinOfPlain(JoinText(l, c, r), l, Strip(c), r, |l| + 7 + |c|, resume);
  }

  /** The scan of a text cut as a join of two operands without parentheses. */
  lemma JoinOfPlain(s: string, l: string, condition: string, r: string, k: nat, resume: Resume)
    requires Plain(l) && Plain(r) && CutAsJoin(s, l, condition, r, k)
    ensures Substitute(s, resume) == Ok(Rewrite("(" + l + " X " + r + ")", [condition]))
  {
    PlainUnchanged(l, resume);
    PlainUnchanged(r, resume);
    JoinStep(s, 0, [], resume, Tally(s, '('), |l| + 2, condition, k, |s|, Rewrite(l, []), Rewrite(r, []));
    var m := l + " X " + r;
    var e := "(" + l + " X " + r + ")";
    assert e == "(" + m + ")" by {
      Assoc("(", l, " X ");
      Assoc("(", l + " X ", r);
    }
    assert s[..0] + "(" + l + " X " + r + ")" + s[|s|..] == e by {
      assert s[..0] == [] && s[|s|..] == [];
      assert [] + "(" == "(";
    }
    assert [] + [condition] + [] + [] == [condition];
    assert Plain(m);
    PlainGroup(m, [condition], resume, Tally(s, '('));
  }

  /** The scan reads `s` as the group `(l)`, then a join with `condition`, then the group `(r)`
      that starts at `k` and ends the text. */
  predicate CutAsJoin(s: string, l: string, condition: string, r: string, k: nat)
  {
    k < |s| && s[0] == '(' && GroupEnd(s, 0) == |l| + 2 && |l| + 2 <= |s| && Inner(s[0..|l| + 2]) == l
    && ShapeAfter(s, |l| + 2) == Joined(condition, k, |s|) && Inner(s[k..|s|]) == r
  }

  /** How the scan cuts a join of balanced operands. */
  lemma JoinCut(l: string, c: string, r: string)
    requires Balanced(l) && Balanced(r) && ']' !in c
    ensures CutAsJoin(JoinText(l, c, r), l, Strip(c), r, |l| + 7 + |c|)
  {
    JoinLeft(l, " ⨝[" + c + "] (" + r + ")");
    JoinSplit(l, c, r);
    JoinMiddle(l, c, r);
    JoinRight(l, c, r);
  }

  /** What the scan finds after the left operand of a join. */
  lemma JoinMiddle(l: string, c: string, r: string)
    requires Balanced(r) && ']' !in c
    ensures var s := JoinText(l, c, r);
      ShapeAfter(s, |l| + 2) == Joined(Strip(c), |l| + 7 + |c|, |s|)
  {
    var s := JoinText(l, c, r);
    var left, j, close := |l| + 2, |l| + 3, |l| + 5 + |c|;
    JoinSplit(l, c, r);
    assert SkipSpaces(s, left) == j by {
      assert s[left] == ' ' && s[j] == '⨝';
    }
    assert JoinAt(s, j);
    JoinFind(l, c, r);
    assert SkipSpaces(s, close + 1) == close + 2 by {
      assert s[close + 1] == ' ' && s[close + 2] == '(';
    }
    JoinRight(l, c, r);
    assert s[j + 2..close] == c;
    ShapeOfJoin(s, left, j, close, close + 2);
  }

  /** The shape after a group, read off the positions the scan finds. */
  lemma ShapeOfJoin(expr: string, left: nat, j: nat, close: nat, k: nat)
    requires left <= |expr| && SkipSpaces(expr, left) == j && JoinAt(expr, j)
    requires FindChar(expr, ']', j + 2) == close && SkipSpaces(expr, close + 1) == k
    requires k < |expr| && expr[k] == '('
    ensures close < |expr| && ShapeAfter(expr, left) == Joined(Strip(expr[j + 2..close]), k, GroupEnd(expr, k))
  {
  }

  lemma JoinSplit(l: string, c: string, r: string)
    ensures JoinText(l, c, r) == "(" + l + ")" + (" ⨝[" + c + "] (" + r + ")")
  {
    var a := "(" + l;
    assert ") ⨝[" == ")" + " ⨝[";
    Assoc(a, ")", " ⨝[");
    Assoc(a + ")", " ⨝[", c);
    Assoc(a + ")", " ⨝[" + c, "] (");
    Assoc(a + ")", " ⨝[" + c + "] (", r);
    Assoc(a + ")", " ⨝[" + c + "] (" + r, ")");
  }

  lemma JoinLeft(l: string, tail: string)
    requires Balanced(l)
    ensures var s := "(" + l + ")" + tail;
      GroupEnd(s, 0) == |l| + 2 && Inner(s[0..|l| + 2]) == l
  {
    GroupOfBalanced([], l, tail);
    assert [] + "(" + l + ")" + tail == "(" + l + ")" + tail;
  }

  lemma JoinFind(l: string, c: string, r: string)
    requires ']' !in c
    ensures FindChar(JoinText(l, c, r), ']', |l| + 5) == |l| + 5 + |c|
  {
    JoinClose(l, c, r);
    FindInParts(JoinText(l, c, r), "(" + l + ") ⨝[", c, " (" + r + ")");
  }

  lemma JoinClose(l: string, c: string, r: string)
    ensures JoinText(l, c, r) == "(" + l + ") ⨝[" + c + "]" + (" (" + r + ")")
  {
    var p := "(" + l + ") ⨝[";
    assert "] (" == "]" + " (";
    Assoc(p + c, "]", " (");
    Assoc(p + c + "]", " (", r);
    Assoc(p + c + "]", " (" + r, ")");
  }

  lemma FindInParts(s: string, p: string, c: string, t: string)
    requires ']' !in c && s == p + c + "]" + t
    ensures FindChar(s, ']', |p|) == |p| + |c|
  {
    FindCharAfter(p, c, ']', t);
  }

  lemma JoinRight(l: string, c: string, r: string)
    requires Balanced(r)
    ensures var s := JoinText(l, c, r); var k := |l| + 7 + |c|;
      GroupEnd(s, k) == |s| && Inner(s[k..|s|]) == r
  {
    var p := "(" + l + ") ⨝[" + c + "] ";
    GroupOfBalanced(p, r, []);
    assert JoinText(l, c, r) == p + "(" + r + ")" + [] by {
      assert "] (" == "] " + "(";
      Assoc("(" + l + ") ⨝[" + c, "] ", "(");
    }
  }

  /** A parenthesised text without other parentheses is passed over as it is. */
  lemma PlainGroup(m: string, conds: seq<string>, resume: Resume, bound: nat)
    requires Plain(m) && Tally("(" + m + ")", '(') <= bound
    ensures ScanJoins("(" + m + ")", 0, conds, resume, bound) == Ok(Rewrite("(" + m + ")", conds))
  {
    var e := "(" + m + ")";
    BalancedPlain(m);
    assert GroupEnd(e, 0) == |e| && Inner(e[0..|e|]) == m by {
      assert e == [] + "(" + m + ")" + [];
      GroupOfBalanced([], m, []);
    }
    PlainUnchanged(m, resume);
    assert ShapeAfter(e, |e|) == NotJoin;
    NestStep(e, 0, conds, resume, bound, |e|, Rewrite(m, []), |e|);
    assert e[..0] + "(" + m + ")" + e[|e|..] == e;
    assert conds + [] == conds;
  }

  /** A join of balanced operands is balanced when its condition is. */
  lemma JoinTextBalanced(l: string, c: string, r: string)
    requires Balanced(l) && Balanced(r) && Balanced(c)
    ensures Balanced(JoinText(l, c, r))
  {
    var a, m, z := "(" + l + ")", " ⨝[", "] ";
    assert Plain(m) && Plain(z);
    BalancedPlain(m);
    BalancedPlain(z);
    BalancedWrap(l);
    BalancedWrap(r);
    BalancedConcat(a, m);
    BalancedConcat(a + m, c);
    BalancedConcat(a + m + c, z);
    BalancedConcat(a + m + c + z, "(" + r + ")");
    JoinPieces(l, c, r);
  }

  lemma JoinPieces(l: string, c: string, r: string)
    ensures JoinText(l, c, r) == "(" + l + ")" + " ⨝[" + c + "] " + ("(" + r + ")")
  {
    var x := "(" + l + ") ⨝[" + c;
    assert "(" + l + ") ⨝[" == "(" + l + ")" + " ⨝[" by {
      assert ") ⨝[" == ")" + " ⨝[";
      Assoc("(" + l, ")", " ⨝[");
    }
    assert "] (" == "] " + "(";
    Assoc(x, "] ", "(");
    Assoc(x + "] ", "(", r);
    Assoc(x + "] ", "(" + r, ")");
  }

  /** The product of two parenthesised joins loses both joins and collects both conditions, left
      first, when the scan goes on just after each rewritten group. */
  lemma ProductOfJoins(l1: string, c1: string, r1: string, l2: string, c2: string, r2: string)
    requires Plain(l1) && Plain(r1) && Balanced(c1) && ']' !in c1
    requires Plain(l2) && Plain(r2) && Balanced(c2) && ']' !in c2
    ensures Substitute("(" + JoinText(l1, c1, r1) + ") X (" + JoinText(l2, c2, r2) + ")", AfterRewritten)
      == Ok(Rewrite("(" + ("(" + l1 + " X " + r1 + ")") + ") X (" + ("(" + l2 + " X " + r2 + ")") + ")",
                    [Strip(c1), Strip(c2)]))
  {
    var p1, p2 := "(" + l1 + " X " + r1 + ")", "(" + l2 + " X " + r2 + ")";
    BalancedPlain(l1);
    BalancedPlain(r1);
    BalancedPlain(l2);
    BalancedPlain(r2);
    JoinTextBalanced(l1, c1, r1);
    JoinTextBalanced(l2, c2, r2);
    JoinOfNames(l1, c1, r1, AfterRewritten);
    JoinOfNames(l2, c2, r2, AfterRewritten);
    ProductOfGroups(JoinText(l1, c1, r1), JoinText(l2, c2, r2), Rewrite(p1, [Strip(c1)]), Rewrite(p2, [Strip(c2)]));
    assert [Strip(c1)] + [Strip(c2)] == [Strip(c1), Strip(c2)];
  }

  /** The scan that goes on just after each rewritten group rewrites the two operands of a product
      one after the other, each as it would be rewritten alone. */
  lemma ProductOfGroups(a: string, b: string, ta: Rewrite, tb: Rewrite)
    requires Balanced(a) && Balanced(b)
    requires Substitute(a, AfterRewritten) == Ok(ta) && Substitute(b, AfterRewritten) == Ok(tb)
    ensures Substitute("(" + a + ") X (" + b + ")", AfterRewritten)
      == Ok(Rewrite("(" + ta.text + ") X (" + tb.text + ")", ta.conditions + tb.conditions))
  {
    var q, lb := " X ", "(" + b + ")";
    var s := "(" + a + ") X (" + b + ")";
    var bound := Tally(s, '(');
    var ga := "(" + ta.text + ")";
    var e1 := ga + q + lb;
    var conds := [] + ta.conditions;
    assert Tally(e1, '(') <= bound && Substitute(s, AfterRewritten) == ScanJoins(e1, |ga|, conds, AfterRewritten, bound) by {
      ProductPieces(a, b);
      FirstGroup(a, q + lb, ta, [], AfterRewritten, bound);
      Assoc(ga, q, lb);
    }
    assert ScanJoins(e1, |ga|, conds, AfterRewritten, bound) == ScanJoins(e1, |ga| + 3, conds, AfterRewritten, bound) by {
      ScanSkip(e1, |ga|, |ga| + 3, conds, AfterRewritten, bound);
    }
    LastGroup(ga + q, b, tb, conds, bound);
    assert Rewrite(ga + q + ("(" + tb.text + ")"), conds + tb.conditions)
      == Rewrite("(" + ta.text + ") X (" + tb.text + ")", ta.conditions + tb.conditions) by {
      ProductPieces(ta.text, tb.text);
      assert conds == ta.conditions;
    }
  }

  /** A group at the start of the text, not followed by a join, is rewritten, and the scan goes on
      just after it. */
  lemma FirstGroup(a: string, rest: string, ta: Rewrite, conds: seq<string>, resume: Resume, bound: nat)
    requires Balanced(a) && Substitute(a, resume) == Ok(ta)
    requires |rest| >= 2 && rest[0] == ' ' && !IsSpace(rest[1]) && rest[1] != '⨝'
    requires Tally("(" + a + ")" + rest, '(') <= bound
    ensures var ga := "(" + ta.text + ")";
      var next := if resume == AsWritten then |a| + 2 else |ga|;
      Tally(ga + rest, '(') <= bound
      && ScanJoins("(" + a + ")" + rest, 0, conds, resume, bound)
         == ScanJoins(ga + rest, next, conds + ta.conditions, resume, bound)
  {
    var s := "(" + a + ")" + rest;
    var left := |a| + 2;
    assert GroupEnd(s, 0) == left && Inner(s[0..left]) == a by {
      assert [] + "(" + a + ")" + rest == s;
      GroupOfBalanced([], a, rest);
    }
    Pieces("(" + a + ")", rest);
    assert ShapeAfter(s, left) == NotJoin by {
      assert s[left] == ' ' && s[left + 1] == rest[1];
      assert SkipSpaces(s, left) == left + 1;
    }
    NestStep(s, 0, conds, resume, bound, left, ta, if resume == AsWritten then left else |ta.text| + 2);
    assert s[..0] + "(" + ta.text + ")" + s[left..] == "(" + ta.text + ")" + rest by {
      assert s[..0] == [];
      assert [] + "(" == "(";
    }
  }

  /** A group that ends the text, once the scan reaches it, is rewritten and ends the scan. */
  lemma LastGroup(p: string, b: string, tb: Rewrite, conds: seq<string>, bound: nat)
    requires Balanced(b) && Substitute(b, AfterRewritten) == Ok(tb)
    requires Tally(p + ("(" + b + ")"), '(') <= bound
    ensures ScanJoins(p + ("(" + b + ")"), |p|, conds, AfterRewritten, bound)
      == Ok(Rewrite(p + ("(" + tb.text + ")"), conds + tb.conditions))
  {
    var lb := "(" + b + ")";
    var e1 := p + lb;
    assert GroupEnd(e1, |p|) == |e1| && Inner(e1[|p|..|e1|]) == b by {
      Assoc(p, "(", b);
      Assoc(p, "(" + b, ")");
      assert e1 + [] == e1;
      GroupOfBalanced(p, b, []);
    }
    var e2 := p + ("(" + tb.text + ")");
    NestStep(e1, |p|, conds, AfterRewritten, bound, |e1|, tb, |p| + |tb.text| + 2);
    assert e1[..|p|] + "(" + tb.text + ")" + e1[|e1|..] == e2 by {
      Pieces(p, lb);
      assert e1[|e1|..] == [];
      Assoc(p, "(", tb.text);
      Assoc(p, "(" + tb.text, ")");
    }
  }

  /** How a product of two groups is put together. */
  lemma ProductPieces(a: string, b: string)
    ensures "(" + a + ") X (" + b + ")" == "(" + a + ")" + (" X " + ("(" + b + ")"))
    ensures "(" + a + ") X (" + b + ")" == ("(" + a + ")" + " X ") + ("(" + b + ")")
  {
    var x := "(" + a;
    assert ") X (" == ")" + " X " + "(";
    Assoc(x, ")", " X ");
    Assoc(x + ")", " X ", "(");
    Assoc(x + ")" + " X ", "(", b);
    Assoc(x + ")" + " X ", "(" + b, ")");
    Assoc(x + ")", " X ", "(" + b + ")");
  }

  /** A one-character name or condition: no parenthesis, no `]`, no whitespace. */
  predicate NameChar(ch: char)
  {
    ch != '(' && ch != ')' && ch != ']' && !IsSpace(ch)
  }

  /** As written, the scan goes on at the index where the rewritten group used to end. The rewrite
      of the first join shortened that group, so the scan lands inside the second group, past its
      opening parenthesis, and never sees its join: the result keeps the second `⨝`, and only the
      first condition is collected, where the corrected scan removes both joins
      (`ProductOfJoins`). */
  lemma SkipsSecondJoin(x: char, c: char, y: char, u: char, d: char, v: char)
    requires NameChar(x) && NameChar(c) && NameChar(y) && NameChar(u) && NameChar(d) && NameChar(v)
    ensures Substitute("(" + JoinText([x], [c], [y]) + ") X (" + JoinText([u], [d], [v]) + ")", AsWritten)
      == Ok(Rewrite("(" + ("(" + [x] + " X " + [y] + ")") + ") X (" + JoinText([u], [d], [v]) + ")", [[c]]))
  {
    var j1, j2 := JoinText([x], [c], [y]), JoinText([u], [d], [v]);
    var p1 := "(" + [x] + " X " + [y] + ")";
    var rest := " X " + ("(" + j2 + ")");
    var s := "(" + j1 + ")" + rest;
    var bound := Tally(s, '(');
    var conds := [] + [[c]];
    var e1 := "(" + p1 + ")" + rest;
    assert Substitute(s, AsWritten) == ScanJoins(e1, 14, conds, AsWritten, bound) && Tally(e1, '(') <= bound by {
      assert Plain([x]) && Plain([y]) && Plain([c]);
      BalancedPlain([x]);
      BalancedPlain([c]);
      BalancedPlain([y]);
      JoinTextBalanced([x], [c], [y]);
      JoinOfNames([x], [c], [y], AsWritten);
      assert Strip([c]) == [c];
      FirstGroup(j1, rest, Rewrite(p1, [[c]]), [], AsWritten, bound);
    }
    SkippedRest(x, y, u, d, v, conds, bound);
    assert "(" + j1 + ") X (" + j2 + ")" == s && Rewrite(e1, conds)
      == Rewrite("(" + p1 + ") X (" + j2 + ")", [[c]]) by {
      ProductPieces(j1, j2);
      ProductPieces(p1, j2);
    }
  }

  /** Where the scan as written resumes, only the right operand of the second join is a group. */
  lemma SkippedRest(x: char, y: char, u: char, d: char, v: char, conds: seq<string>, bound: nat)
    requires NameChar(u) && NameChar(d) && NameChar(v)
    requires Tally("(" + ("(" + [x] + " X " + [y] + ")") + ")" + (" X " + ("(" + JoinText([u], [d], [v]) + ")")), '(') <= bound
    ensures var e1 := "(" + ("(" + [x] + " X " + [y] + ")") + ")" + (" X " + ("(" + JoinText([u], [d], [v]) + ")"));
      ScanJoins(e1, 14, conds, AsWritten, bound) == Ok(Rewrite(e1, conds))
  {
    var e1 := "(" + ("(" + [x] + " X " + [y] + ")") + ")" + (" X " + ("(" + JoinText([u], [d], [v]) + ")"));
    var p := "(" + ("(" + [x] + " X " + [y] + ")") + ")" + " X ((" + [u] + ") ⨝[" + [d] + "] ";
    SecondGroupCut(x, y, u, d, v);
    assert forall k :: 14 <= k < 22 ==> e1[k] != '(';
    ScanSkip(e1, 14, 22, conds, AsWritten, bound);
    InnerGroup(p, [v], conds, bound);
    ScanSkip(e1, 25, 26, conds, AsWritten, bound);
  }

  lemma SecondGroupCut(x: char, y: char, u: char, d: char, v: char)
    ensures var e1 := "(" + ("(" + [x] + " X " + [y] + ")") + ")" + (" X " + ("(" + JoinText([u], [d], [v]) + ")"));
      var p := "(" + ("(" + [x] + " X " + [y] + ")") + ")" + " X ((" + [u] + ") ⨝[" + [d] + "] ";
      |p| == 22 && e1 == p + "(" + [v] + ")" + ")"
  {
  }

  /** A group of one name, closed by the parenthesis of an enclosing group, is left as it is, and
      the scan as written goes on after it. */
  lemma InnerGroup(p: string, n: string, conds: seq<string>, bound: nat)
    requires Plain(n) && Tally(p + "(" + n + ")" + ")", '(') <= bound
    ensures var e := p + "(" + n + ")" + ")";
      ScanJoins(e, |p|, conds, AsWritten, bound) == ScanJoins(e, |p| + |n| + 2, conds, AsWritten, bound)
  {
    var e := p + "(" + n + ")" + ")";
    var left := |p| + |n| + 2;
    assert GroupEnd(e, |p|) == left && Inner(e[|p|..left]) == n by {
      BalancedPlain(n);
      GroupOfBalanced(p, n, ")");
    }
    assert ShapeAfter(e, left) == NotJoin by {
      assert e[left] == ')';
    }
    assert e[..|p|] + "(" + n + ")" + e[left..] == e;
    PlainStep(e, |p|, left, n, conds, AsWritten, bound);
  }

  /** A group holding a text without parentheses, not followed by a join, is passed over. */
  lemma PlainStep(e: string, i: nat, left: nat, n: string, conds: seq<string>, resume: Resume, bound: nat)
    requires Plain(n) && Tally(e, '(') <= bound && i < |e| && e[i] == '('
    requires GroupEnd(e, i) == left && Inner(e[i..left]) == n && ShapeAfter(e, left) == NotJoin
    requires e[..i] + "(" + n + ")" + e[left..] == e
    ensures ScanJoins(e, i, conds, resume, bound)
      == ScanJoins(e, if resume == AsWritten then left else i + |n| + 2, conds, resume, bound)
  {
    PlainUnchanged(n, resume);
    NestStep(e, i, conds, resume, bound, left, Rewrite(n, []), if resume == AsWritten then left else i + |n| + 2);
    assert conds + [] == conds;
  }

  // ---------------------------------------------------------------------------------------------
  // Text without joins is a fixed point of the scan

  /** What a text lacks, its slices lack. */
  lemma SliceOut(s: string, a: nat, b: nat, x: char)
    requires a <= b <= |s| && x !in s
    ensures x !in s[a..b]
  {
  }

  /** Every `(` of balanced text is closed. */
  lemma BalancedCloses(x: string, i: nat)
    requires Balanced(x) && i < |x| && x[i] == '('
    ensures TreeBuilder.CloseOf(x, i) < |x|
  {
    assert x == x[..i] + x[i..];
    BalanceConcat(x[..i], x[i..]);
    GroupCloses(x, i);
  }

  /** After a group of text without `⨝` there is no join. */
  lemma NoJoinAfter(x: string, left: nat)
    requires left <= |x| && '⨝' !in x
    ensures ShapeAfter(x, left) == NotJoin
  {
    var j := SkipSpaces(x, left);
    if j < |x| {
      assert x[j] in x;
    }
  }

  /** The inside of a group of balanced text without `⨝`. */
  lemma GroupInside(x: string, i: nat)
    requires Balanced(x) && '⨝' !in x && i < |x| && x[i] == '('
    ensures var left := GroupEnd(x, i); var b := Inner(x[i..left]);
      left == i + |b| + 2 && x[i..left] == "(" + b + ")"
      && Balanced(b) && '⨝' !in b && Tally(b, '(') < Tally(x, '(')
  {
    var left := GroupEnd(x, i);
    BalancedCloses(x, i);
    GroupShape(x, i);
    var b := TreeBuilder.Between(x, i);
    assert Inner(x[i..left]) == b;
    GroupTally(x, i, left);
    SliceOut(x, i, left, '⨝');
    assert b == x[i..left][1..|b| + 1];
    SliceOut(x[i..left], 1, |b| + 1, '⨝');
  }

  /** A group of balanced text without `⨝` whose inside is rewritten into itself is passed over. */
  lemma FixedGroup(x: string, i: nat, conds: seq<string>, resume: Resume, bound: nat, b: string)
    requires Tally(x, '(') <= bound && '⨝' !in x && i < |x| && x[i] == '('
    requires b == Inner(x[i..GroupEnd(x, i)]) && GroupEnd(x, i) == i + |b| + 2
    requires x[i..GroupEnd(x, i)] == "(" + b + ")"
    requires Substitute(b, resume) == Ok(Rewrite(b, []))
    ensures ScanJoins(x, i, conds, resume, bound) == ScanJoins(x, GroupEnd(x, i), conds, resume, bound)
  {
    var left := GroupEnd(x, i);
    NoJoinAfter(x, left);
    NestStep(x, i, conds, resume, bound, left, Rewrite(b, []), left);
    Reassembled(x, i, left, b);
    assert conds + [] == conds;
  }

  lemma Reassembled(x: string, i: nat, j: nat, b: string)
    requires i <= j <= |x| && x[i..j] == "(" + b + ")"
    ensures x[..i] + "(" + b + ")" + x[j..] == x
  {
    assert x == x[..i] + x[i..j] + x[j..];
    Assoc(x[..i], "(", b);
    Assoc(x[..i], "(" + b, ")");
  }

  /** The scan leaves balanced text without `⨝` as it is, from any position, and collects no
      condition. */
  lemma {:induction false} JoinFreeScan(x: string, i: nat, conds: seq<string>, resume: Resume, bound: nat)
    requires Tally(x, '(') <= bound && Balanced(x) && '⨝' !in x && i <= |x|
    ensures ScanJoins(x, i, conds, resume, bound) == Ok(Rewrite(x, conds))
    decreases Tally(x, '('), |x| - i
  {
    if i < |x| && x[i] != '(' {
      JoinFreeScan(x, i + 1, conds, resume, bound);
    } else if i < |x| {
      GroupInside(x, i);
      var b := Inner(x[i..GroupEnd(x, i)]);
      JoinFreeFixed(b, resume);
      FixedGroup(x, i, conds, resume, bound, b);
      JoinFreeScan(x, GroupEnd(x, i), conds, resume, bound);
    }
  }

  /** Balanced text without `⨝` is rewritten into itself, with no condition. */
  lemma {:induction false} JoinFreeFixed(y: string, resume: Resume)
    requires Balanced(y) && '⨝' !in y
    ensures Substitute(y, resume) == Ok(Rewrite(y, []))
    decreases Tally(y, '('), |y| + 1
  {
    JoinFreeScan(y, 0, [], resume, Tally(y, '('));
  }

  // ---------------------------------------------------------------------------------------------
  // Joins of any operands

  /** The product `(a X b)` of two balanced texts without `⨝` is balanced and has no `⨝`. */
  lemma JoinedProduct(a: string, b: string)
    requires Balanced(a) && Balanced(b) && '⨝' !in a && '⨝' !in b
    ensures Balanced("(" + a + " X " + b + ")") && '⨝' !in "(" + a + " X " + b + ")"
  {
    BalancedPlain(" X ");
    BalancedConcat(a, " X ");
    BalancedConcat(a + " X ", b);
    BalancedWrap(a + " X " + b);
    assert "(" + a + " X " + b + ")" == "(" + (a + " X " + b) + ")";
  }

  /** A join `(a) ⨝[c] (b)` whose operands are rewritten into balanced texts without `⨝` becomes
      their product; its condition, stripped, is collected before those of its operands. */
  lemma JoinOfGroups(a: string, c: string, b: string, ta: Rewrite, tb: Rewrite, resume: Resume)
    requires Balanced(a) && Balanced(b) && ']' !in c
    requires Substitute(a, resume) == Ok(ta) && Substitute(b, resume) == Ok(tb)
    requires Balanced(ta.text) && Balanced(tb.text) && '⨝' !in ta.text && '⨝' !in tb.text
    ensures Substitute(JoinText(a, c, b), resume)
      == Ok(Rewrite("(" + ta.text + " X " + tb.text + ")", [Strip(c)] + ta.conditions + tb.conditions))
  {
    JoinCut(a, c, b);
    JoinOfCut(JoinText(a, c, b), a, Strip(c), b, |a| + 7 + |c|, ta, tb, resume);
  }

  /** The scan of a text cut as a join of two groups. */
  lemma JoinOfCut(s: string, a: string, condition: string, b: string, k: nat, ta: Rewrite, tb: Rewrite, resume: Resume)
    requires CutAsJoin(s, a, condition, b, k)
    requires Substitute(a, resume) == Ok(ta) && Substitute(b, resume) == Ok(tb)
    requires Balanced(ta.text) && Balanced(tb.text) && '⨝' !in ta.text && '⨝' !in tb.text
    ensures Substitute(s, resume)
      == Ok(Rewrite("(" + ta.text + " X " + tb.text + ")", [condition] + ta.conditions + tb.conditions))
  {
    var bound := Tally(s, '(');
    var e := "(" + ta.text + " X " + tb.text + ")";
    var conds := [condition] + ta.conditions + tb.conditions;
    JoinStep(s, 0, [], resume, bound, |a| + 2, condition, k, |s|, ta, tb);
    assert s[..0] + "(" + ta.text + " X " + tb.text + ")" + s[|s|..] == e by {
      assert s[..0] == [] && s[|s|..] == [];
      assert [] + "(" == "(";
    }
    assert [] + [condition] == [condition];
    JoinedProduct(ta.text, tb.text);
    JoinFreeScan(e, 0, conds, resume, bound);
  }

  /** An operator without parentheses applied to a group: the group's inside is rewritten. */
  lemma UnaryGroup(op: string, b: string, tb: Rewrite)
    requires Plain(op) && Balanced(b) && Substitute(b, AfterRewritten) == Ok(tb)
    ensures Substitute(op + "(" + b + ")", AfterRewritten) == Ok(Rewrite(op + "(" + tb.text + ")", tb.conditions))
  {
    UnaryScan(op, b, tb);
    Assoc(op, "(", b);
    Assoc(op, "(" + b, ")");
    Assoc(op, "(", tb.text);
    Assoc(op, "(" + tb.text, ")");
  }

  lemma UnaryScan(op: string, b: string, tb: Rewrite)
    requires Plain(op) && Balanced(b) && Substitute(b, AfterRewritten) == Ok(tb)
    ensures Substitute(op + ("(" + b + ")"), AfterRewritten) == Ok(Rewrite(op + ("(" + tb.text + ")"), tb.conditions))
  {
    var s := op + ("(" + b + ")");
    var bound := Tally(s, '(');
    assert forall q :: 0 <= q < |op| ==> s[q] == op[q] && op[q] in op;
    ScanSkip(s, 0, |op|, [], AfterRewritten, bound);
    LastGroup(op, b, tb, [], bound);
    assert [] + tb.conditions == tb.conditions;
  }

  /**
   * Relational-algebra text built from relations, joins, products and operators applied to one
   * operand, every operand in parentheses as formatted text writes it.
   */
  datatype Term =
    | Relation(name: string)
    | JoinTerm(left: Term, condition: string, right: Term)
    | ProductTerm(left: Term, right: Term)
    | UnaryTerm(operator: string, operand: Term)

  /** The text of a term. */
  function TermText(t: Term): string
  {
    match t
    case Relation(n) => n
    case JoinTerm(l, c, r) => JoinText(TermText(l), c, TermText(r))
    case ProductTerm(l, r) => "(" + TermText(l) + ") X (" + TermText(r) + ")"
    case UnaryTerm(op, u) => op + "(" + TermText(u) + ")"
  }

  /** The text with every join replaced by the product of its operands, as the docstring of
      `remover_joins` describes it. */
  function Unjoined(t: Term): string
  {
    match t
    case Relation(n) => n
    case JoinTerm(l, _, r) => "(" + Unjoined(l) + " X " + Unjoined(r) + ")"
    case ProductTerm(l, r) => "(" + Unjoined(l) + ") X (" + Unjoined(r) + ")"
    case UnaryTerm(op, u) => op + "(" + Unjoined(u) + ")"
  }

  /** The join conditions of a term, stripped, each before those of its operands, the left
      operand's before the right one's. */
  function JoinConditions(t: Term): seq<string>
  {
    match t
    case Relation(_) => []
    case JoinTerm(l, c, r) => [Strip(c)] + JoinConditions(l) + JoinConditions(r)
    case ProductTerm(l, r) => JoinConditions(l) + JoinConditions(r)
    case UnaryTerm(_, u) => JoinConditions(u)
  }

  /** Names and operators hold no parenthesis and no `⨝`; conditions are balanced and hold no `]`
      (the scan reads a condition up to the first `]`) and no `⨝`. */
  predicate WellFormed(t: Term)
  {
    match t
    case Relation(n) => Plain(n) && '⨝' !in n
    case JoinTerm(l, c, r) => WellFormed(l) && WellFormed(r) && Balanced(c) && ']' !in c && '⨝' !in c
    case ProductTerm(l, r) => WellFormed(l) && WellFormed(r)
    case UnaryTerm(op, u) => WellFormed(u) && Plain(op) && '⨝' !in op
  }

  /** The text of a well-formed term, and the text without its joins, are balanced, and the latter
      has no `⨝` left. */
  lemma {:induction false} TermBalanced(t: Term)
    requires WellFormed(t)
    ensures Balanced(TermText(t)) && Balanced(Unjoined(t)) && '⨝' !in Unjoined(t)
  {
    match t
    case Relation(n) =>
      BalancedPlain(n);
    case JoinTerm(l, c, r) =>
      TermBalanced(l);
      TermBalanced(r);
      JoinTextBalanced(TermText(l), c, TermText(r));
      JoinedProduct(Unjoined(l), Unjoined(r));
    case ProductTerm(l, r) =>
      TermBalanced(l);
      TermBalanced(r);
      ProductBalanced(TermText(l), TermText(r));
      ProductBalanced(Unjoined(l), Unjoined(r));
    case UnaryTerm(op, u) =>
      TermBalanced(u);
      UnaryBalanced(op, TermText(u));
      UnaryBalanced(op, Unjoined(u));
  }

  lemma UnaryBalanced(op: string, u: string)
    requires Plain(op) && Balanced(u)
    ensures Balanced(op + "(" + u + ")")
    ensures '⨝' !in op && '⨝' !in u ==> '⨝' !in op + "(" + u + ")"
  {
    BalancedPlain(op);
    BalancedWrap(u);
    BalancedConcat(op, "(" + u + ")");
    Assoc(op, "(", u);
    Assoc(op, "(" + u, ")");
  }

  lemma ProductBalanced(a: string, b: string)
    requires Balanced(a) && Balanced(b)
    ensures Balanced("(" + a + ") X (" + b + ")")
    ensures '⨝' !in a && '⨝' !in b ==> '⨝' !in "(" + a + ") X (" + b + ")"
  {
    BalancedWrap(a);
    BalancedWrap(b);
    BalancedPlain(" X ");
    BalancedConcat("(" + a + ")", " X ");
    BalancedConcat("(" + a + ")" + " X ", "(" + b + ")");
    ProductPieces(a, b);
  }

  /** `substituir_joins` removes every join of a well-formed term: the scan, which goes on just
      after each rewritten group, turns each join into the product of its rewritten operands and
      collects the join conditions in the order of `JoinConditions`. */
  lemma {:induction false} RemovesEveryJoin(t: Term)
    requires WellFormed(t)
    ensures Substitute(TermText(t), AfterRewritten) == Ok(Rewrite(Unjoined(t), JoinConditions(t)))
  {
    match t
    case Relation(n) =>
      PlainUnchanged(n, AfterRewritten);
    case JoinTerm(l, c, r) =>
      RemovesEveryJoin(l);
      RemovesEveryJoin(r);
      TermBalanced(l);
      TermBalanced(r);
      JoinOfGroups(TermText(l), c, TermText(r), Rewrite(Unjoined(l), JoinConditions(l)),
        Rewrite(Unjoined(r), JoinConditions(r)), AfterRewritten);
    case ProductTerm(l, r) =>
      RemovesEveryJoin(l);
      RemovesEveryJoin(r);
      TermBalanced(l);
      TermBalanced(r);
      ProductOfGroups(TermText(l), TermText(r), Rewrite(Unjoined(l), JoinConditions(l)),
        Rewrite(Unjoined(r), JoinConditions(r)));
    case UnaryTerm(op, u) =>
      RemovesEveryJoin(u);
      TermBalanced(u);
      UnaryGroup(op, TermText(u), Rewrite(Unjoined(u), JoinConditions(u)));
  }

  /** `remover_joins` on text that formats into a well-formed term: the joins are replaced as
      `RemovesEveryJoin` says and the conditions are inserted. */
  lemma RemoveJoinsOfTerm(algebra: string, t: Term)
    requires WellFormed(t) && Format(algebra) == TermText(t)
    ensures JoinsRemoved(algebra) == InsertConditions(Unjoined(t), JoinConditions(t))
  {
    RemovesEveryJoin(t);
  }

  /** `remover_joins` leaves no join in text that formats into a well-formed term. */
  lemma NoJoinLeft(algebra: string, t: Term)
    requires WellFormed(t) && Format(algebra) == TermText(t)
    ensures JoinsRemoved(algebra).Ok? ==> '⨝' !in JoinsRemoved(algebra).value
  {
    RemovesEveryJoin(t);
    TermBalanced(t);
    ConditionsNoJoin(t);
    InsertNoJoin(Unjoined(t), JoinConditions(t));
  }

  /** `strip` keeps a slice of its input. */
  lemma StripOut(c: string, x: char)
    requires x !in c
    ensures x !in Strip(c)
  {
    var l := TrimLeft(c);
    TrimLeftRemovesSpace(c);
    SliceOut(c, |c| - |l|, |c|, x);
    TrimRightRemovesSpace(l);
    SliceOut(l, 0, |TrimRight(l)|, x);
  }

  lemma {:induction false} ConditionsNoJoin(t: Term)
    requires WellFormed(t)
    ensures forall k :: 0 <= k < |JoinConditions(t)| ==> '⨝' !in JoinConditions(t)[k]
  {
    match t
    case Relation(_) =>
    case JoinTerm(l, c, r) =>
      ConditionsNoJoin(l);
      ConditionsNoJoin(r);
      StripOut(c, '⨝');
    case ProductTerm(l, r) =>
      ConditionsNoJoin(l);
      ConditionsNoJoin(r);
    case UnaryTerm(_, u) =>
      ConditionsNoJoin(u);
  }

  // ---------------------------------------------------------------------------------------------
  // The replacement template

  /** A literal prefix of the template is copied as it is. */
  lemma {:induction false} ExpandPrefix(a: string, u: string, whole: string, group: string)
    requires '\\' !in a
    ensures Expand(a + u, whole, group) == Prefixed(a, Expand(u, whole, group))
    decreases |a|
  {
    if a == [] {
      assert a + u == u;
      match Expand(u, whole, group)
      case Err(_) =>
      case Ok(v) => assert [] + v == v;
    } else {
      var t := a + u;
      assert t[0] == a[0] && a[0] in a;
      assert TemplateToken(t, whole, group) == Ok(([a[0]], 1));
      assert t[1..] == a[1..] + u;
      SliceOut(a, 1, |a|, '\\');
      ExpandPrefix(a[1..], u, whole, group);
      match Expand(u, whole, group)
      case Err(_) =>
      case Ok(v) => assert [a[0]] + (a[1..] + v) == a + v;
    }
  }

  /** A template without a backslash stands for itself. */
  lemma ExpandLiteral(t: string, whole: string, group: string)
    requires '\\' !in t
    ensures Expand(t, whole, group) == Ok(t)
  {
    ExpandPrefix(t, [], whole, group);
    assert t + [] == t;
  }

  /** `\1` stands for the group. */
  lemma ExpandGroup(a: string, b: string, whole: string, group: string)
    requires '\\' !in a && '\\' !in b && (b == [] || !AsciiDigit(b[0]))
    ensures Expand(a + "\\1" + b, whole, group) == Ok(a + group + b)
  {
    var u := "\\1" + b;
    assert a + "\\1" + b == a + u;
    ExpandPrefix(a, u, whole, group);
    assert u[0] == '\\' && u[1] == '1' && u[2..] == b;
    assert TemplateToken(u, whole, group) == Ok((group, 2)) by {
      assert |u| > 2 ==> !AsciiDigit(u[2]);
    }
    ExpandLiteral(b, whole, group);
    assert Expand(u, whole, group) == Ok(group + b);
    assert a + (group + b) == a + group + b;
  }

  /** An escape such as `\n` stands for its character. */
  lemma ExpandEscape(a: string, c: char, b: string, whole: string, group: string)
    requires '\\' !in a && '\\' !in b && EscapeOf(c).Some?
    ensures Expand(a + ['\\', c] + b, whole, group) == Ok(a + [EscapeOf(c).value] + b)
  {
    var u := ['\\', c] + b;
    assert a + ['\\', c] + b == a + u;
    ExpandPrefix(a, u, whole, group);
    assert TemplateToken(u, whole, group) == Ok(([EscapeOf(c).value], 2));
    assert u[2..] == b;
    ExpandLiteral(b, whole, group);
    assert a + ([EscapeOf(c).value] + b) == a + [EscapeOf(c).value] + b;
  }

  /** An escaped ASCII letter that is neither an escape nor `\g` makes `re.sub` raise. */
  lemma ExpandBadEscape(a: string, c: char, b: string, whole: string, group: string)
    requires '\\' !in a && AsciiLetter(c) && c != 'g' && EscapeOf(c).None?
    ensures Expand(a + ['\\', c] + b, whole, group) == Err(BadTemplate)
  {
    var u := ['\\', c] + b;
    assert a + ['\\', c] + b == a + u;
    ExpandPrefix(a, u, whole, group);
    assert TemplateToken(u, whole, group) == Err(BadTemplate);
  }

  /** A character beyond Latin-1 that is neither in the template nor in the match is not in the
      replacement. */
  lemma {:induction false} ExpandKeepsOut(t: string, whole: string, group: string, x: char)
    requires x as int >= 256 && x !in t && x !in whole && x !in group
    ensures Expand(t, whole, group).Ok? ==> x !in Expand(t, whole, group).value
    decreases |t|
  {
    if t != [] {
      match TemplateToken(t, whole, group)
      case Err(_) =>
      case Ok((piece, n)) =>
        assert x !in piece by {
          assert t[0] in t;
          if |t| >= 2 {
            SliceOut(t, 0, 2, x);
          }
        }
        SliceOut(t, n, |t|, x);
        ExpandKeepsOut(t[n..], whole, group, x);
    }
  }

  // ---------------------------------------------------------------------------------------------
  // Inserting the conditions

  /** Each collected condition in parentheses. */
  lemma {:induction false} ParenthesisedAt(conds: seq<string>)
    ensures forall k :: 0 <= k < |conds| ==> Parenthesised(conds)[k] == "(" + conds[k] + ")"
    decreases |conds|
  {
    if conds != [] {
      ParenthesisedAt(conds[1..]);
    }
  }

  /** The conjunction of the parenthesised conditions lacks what they all lack, when that is none of
      the characters the conjunction adds. */
  lemma {:induction false} LiftedOut(conds: seq<string>, x: char)
    requires x != '(' && x != ')' && x != ' ' && x != '∧'
    requires forall k :: 0 <= k < |conds| ==> x !in conds[k]
    ensures x !in JoinWith(Parenthesised(conds), " ∧ ")
    decreases |conds|
  {
    ParenthesisedAt(conds);
    if |conds| >= 2 {
      LiftedOut(conds[1..], x);
      assert Parenthesised(conds)[1..] == Parenthesised(conds[1..]);
    }
  }

  /** Concatenating lists of parts joins their joins. */
  lemma {:induction false} JoinWithAppend(xs: seq<string>, ys: seq<string>, sep: string)
    requires xs != [] && ys != []
    ensures JoinWith(xs + ys, sep) == JoinWith(xs, sep) + sep + JoinWith(ys, sep)
    decreases |xs|
  {
    var zs := xs + ys;
    assert |zs| >= 2 && zs[0] == xs[0];
    if |xs| == 1 {
      assert zs[1..] == ys;
      assert JoinWith(zs, sep) == xs[0] + sep + JoinWith(ys, sep);
    } else {
      assert zs[1..] == xs[1..] + ys;
      JoinWithAppend(xs[1..], ys, sep);
      assert JoinWith(xs, sep) == xs[0] + sep + JoinWith(xs[1..], sep);
      assert JoinWith(zs, sep) == xs[0] + sep + JoinWith(xs[1..] + ys, sep);
    }
  }

  /** Without a selection, the conditions form a new selection around the whole text, and
      `quebrar_por_conjuncao` reads them back one by one, each in its parentheses. */
  lemma InsertWraps(expr: string, conds: seq<string>)
    requires conds != [] && '𝛔' !in expr
    requires forall k :: 0 <= k < |conds| ==> Balanced(conds[k])
    ensures var c := JoinWith(Parenthesised(conds), " ∧ ");
      InsertConditions(expr, conds) == Ok("𝛔[" + c + "](" + expr + ")") && Conjuncts(c) == Parenthesised(conds)
  {
    NoSelection(expr, 0);
    LiftedConjuncts(conds);
  }

  lemma {:induction false} NoSelection(s: string, i: nat)
    requires i <= |s| && '𝛔' !in s
    ensures FirstSelection(s, i) == None
    decreases |s| - i
  {
    if i < |s| {
      assert s[i] in s;
      NoSelection(s, i + 1);
    }
  }

  /** The parenthesised conditions, joined, split back into themselves. */
  lemma LiftedConjuncts(conds: seq<string>)
    requires conds != [] && forall k :: 0 <= k < |conds| ==> Balanced(conds[k])
    ensures Conjuncts(JoinWith(Parenthesised(conds), " ∧ ")) == Parenthesised(conds)
  {
    ParenthesisedAt(conds);
    forall k | 0 <= k < |conds|
      ensures Conjunct(Parenthesised(conds)[k])
    {
      ParenthesisedConjunct(conds[k]);
    }
    ConjunctsJoined(Parenthesised(conds));
  }

  /** The selection found first is the one after a text without `𝛔`. */
  lemma {:induction false} SelectionAfter(s: string, p: nat, i: nat)
    requires i <= p < |s| && SelectionAt(s, p)
    requires forall q :: i <= q < p ==> s[q] != '𝛔'
    ensures FirstSelection(s, i) == Some(p)
    decreases p - i
  {
    if i < p {
      SelectionAfter(s, p, i + 1);
    }
  }

  /** With a selection whose condition holds no backslash, the conditions are added as new
      conjuncts after that condition, and nothing else changes. */
  lemma {:induction false} InsertExtends(p: string, e: string, rest: string, conds: seq<string>)
    requires conds != [] && '𝛔' !in p && NoLazyStop(e) && '\\' !in e
    requires forall k :: 0 <= k < |conds| ==> '\\' !in conds[k]
    ensures InsertConditions(p + "𝛔[" + e + "](" + rest, conds)
      == Ok(p + "𝛔[" + e + " ∧ " + JoinWith(Parenthesised(conds), " ∧ ") + "](" + rest)
  {
    var s := p + "𝛔[" + e + "](" + rest;
    var j := |p| + 2 + |e|;
    SelectionCut(p, e, rest);
    var total := JoinWith(Parenthesised(conds), " ∧ ");
    LiftedOut(conds, '\\');
    var template := "𝛔[" + e + " ∧ " + total + "](";
    assert '\\' !in template by {
      assert template == ("𝛔[" + e) + (" ∧ " + total + "](");
    }
    ExpandLiteral(template, s[|p|..j + 2], e);
    InsertVia(s, |p|, j, conds, template);
    assert p + template + rest == p + "𝛔[" + e + " ∧ " + total + "](" + rest by {
      Assoc(p, "𝛔[" + e + " ∧ " + total, "](");
      Assoc(p, "𝛔[" + e + " ∧ ", total);
      Assoc(p, "𝛔[" + e, " ∧ ");
      Assoc(p, "𝛔[", e);
    }
  }

  /** Once the template has expanded to `v`, the text has `v` in place of the first selection's
      head. */
  lemma InsertVia(s: string, p: nat, j: nat, conds: seq<string>, v: string)
    requires conds != [] && FirstSelection(s, 0) == Some(p) && LazyClose(s, p + 2) == Some(j)
    requires Expand("𝛔[" + s[p + 2..j] + " ∧ " + JoinWith(Parenthesised(conds), " ∧ ") + "](", s[p..j + 2], s[p + 2..j]) == Ok(v)
    ensures InsertConditions(s, conds) == Ok(s[..p] + v + s[j + 2..])
  {
  }

  /** Where the search for a selection cuts `p 𝛔[e]( rest`. */
  lemma {:induction false} SelectionCut(p: string, e: string, rest: string)
    requires '𝛔' !in p && NoLazyStop(e)
    ensures var s := p + "𝛔[" + e + "](" + rest; var j := |p| + 2 + |e|;
      FirstSelection(s, 0) == Some(|p|) && LazyClose(s, |p| + 2) == Some(j)
      && s[..|p|] == p && s[|p| + 2..j] == e && s[j + 2..] == rest
  {
    var q := p + "𝛔[";
    LazyCloseAfter(q, e, rest);
    CutPieces(q, e, rest);
    SelectionFound(p, q + e + "](" + rest);
    assert (q + e + "](" + rest)[..|p|] == q[..|p|];
  }

  lemma SelectionFound(p: string, s: string)
    requires '𝛔' !in p && |p| + 2 <= |s| && s[..|p| + 2] == p + "𝛔["
    requires LazyClose(s, |p| + 2).Some?
    ensures FirstSelection(s, 0) == Some(|p|)
  {
    assert s[|p|] == (p + "𝛔[")[|p|];
    assert s[|p| + 1] == (p + "𝛔[")[|p| + 1];
    forall k | 0 <= k < |p|
      ensures s[k] != '𝛔'
    {
      assert s[k] == (p + "𝛔[")[k] == p[k];
      assert p[k] in p;
    }
    SelectionAfter(s, |p|, 0);
  }

  lemma CutPieces(q: string, e: string, rest: string)
    ensures var s := q + e + "](" + rest;
      s[..|q|] == q && s[|q|..|q| + |e|] == e && s[|q| + |e| + 2..] == rest
  {
  }

  /** The conjuncts of the extended condition are the old ones followed by the new ones, each in
      parentheses. */
  lemma ExtendedConjuncts(es: seq<string>, conds: seq<string>)
    requires es != [] && conds != []
    requires forall k :: 0 <= k < |es| ==> Conjunct(es[k])
    requires forall k :: 0 <= k < |conds| ==> Balanced(conds[k])
    ensures Conjuncts(JoinWith(es, " ∧ ") + " ∧ " + JoinWith(Parenthesised(conds), " ∧ ")) == es + Parenthesised(conds)
  {
    var ps := Parenthesised(conds);
    ParenthesisedAt(conds);
    forall k | 0 <= k < |conds|
      ensures Conjunct(ps[k])
    {
      ParenthesisedConjunct(conds[k]);
    }
    JoinWithAppend(es, ps, " ∧ ");
    assert forall k :: 0 <= k < |es + ps| ==> (es + ps)[k] == if k < |es| then es[k] else ps[k - |es|];
    ConjunctsJoined(es + ps);
  }

  /** A backslash and an ASCII letter that is no escape in the condition of the first selection,
      such as the `\d` of `x = '\d'`, make `re.sub` raise. */
  lemma InsertBadEscape(p: string, a: string, c: char, b: string, rest: string, conds: seq<string>)
    requires conds != [] && '𝛔' !in p && NoLazyStop(a + ['\\', c] + b)
    requires '\\' !in a && AsciiLetter(c) && c != 'g' && EscapeOf(c).None?
    ensures InsertConditions(p + "𝛔[" + (a + ['\\', c] + b) + "](" + rest, conds) == Err(BadTemplate)
  {
    var e := a + ['\\', c] + b;
    var s := p + "𝛔[" + e + "](" + rest;
    var j := |p| + 2 + |e|;
    SelectionCut(p, e, rest);
    var total := JoinWith(Parenthesised(conds), " ∧ ");
    assert "𝛔[" + e + " ∧ " + total + "](" == ("𝛔[" + a) + ['\\', c] + (b + " ∧ " + total + "](");
    ExpandBadEscape("𝛔[" + a, c, b + " ∧ " + total + "](", s[|p|..j + 2], e);
  }

  /** `\1` in the condition of the first selection is replaced by that whole condition. */
  lemma {:induction false} InsertGroupCopy(p: string, a: string, b: string, rest: string, conds: seq<string>)
    requires conds != [] && '𝛔' !in p && NoLazyStop(a + "\\1" + b)
    requires '\\' !in a && '\\' !in b && (b == [] || !AsciiDigit(b[0]))
    requires forall k :: 0 <= k < |conds| ==> '\\' !in conds[k]
    ensures var e := a + "\\1" + b;
      InsertConditions(p + "𝛔[" + e + "](" + rest, conds)
      == Ok(p + "𝛔[" + a + e + b + " ∧ " + JoinWith(Parenthesised(conds), " ∧ ") + "](" + rest)
  {
    var e := a + "\\1" + b;
    var s := p + "𝛔[" + e + "](" + rest;
    var j := |p| + 2 + |e|;
    SelectionCut(p, e, rest);
    var total := JoinWith(Parenthesised(conds), " ∧ ");
    LiftedOut(conds, '\\');
    GroupTemplate(a, b, total, s[|p|..j + 2], e);
    var v := "𝛔[" + a + e + b + " ∧ " + total + "](";
    InsertVia(s, |p|, j, conds, v);
    assert p + v + rest == p + "𝛔[" + a + e + b + " ∧ " + total + "](" + rest by {
      Assoc(p, "𝛔[" + a + e + b + " ∧ " + total, "](");
      Assoc(p, "𝛔[" + a + e + b + " ∧ ", total);
      Assoc(p, "𝛔[" + a + e + b, " ∧ ");
      Assoc(p, "𝛔[" + a + e, b);
      Assoc(p, "𝛔[" + a, e);
      Assoc(p, "𝛔[", a);
    }
  }

  /** The template that extends a condition holding `\1` expands it to the group. */
  lemma GroupTemplate(a: string, b: string, total: string, whole: string, group: string)
    requires '\\' !in a && '\\' !in b && '\\' !in total && (b == [] || !AsciiDigit(b[0]))
    ensures Expand("𝛔[" + (a + "\\1" + b) + " ∧ " + total + "](", whole, group)
      == Ok("𝛔[" + a + group + b + " ∧ " + total + "](")
  {
    var tail := b + " ∧ " + total + "](";
    assert "𝛔[" + (a + "\\1" + b) + " ∧ " + total + "](" == ("𝛔[" + a) + "\\1" + tail;
    assert '\\' !in tail;
    assert tail == [] || !AsciiDigit(tail[0]);
    ExpandGroup("𝛔[" + a, tail, whole, group);
    assert ("𝛔[" + a) + group + tail == "𝛔[" + a + group + b + " ∧ " + total + "](";
  }

  /** Inserting conditions without `⨝` into text without `⨝` adds none. */
  lemma InsertNoJoin(expr: string, conds: seq<string>)
    requires '⨝' !in expr && forall k :: 0 <= k < |conds| ==> '⨝' !in conds[k]
    ensures InsertConditions(expr, conds).Ok? ==> '⨝' !in InsertConditions(expr, conds).value
  {
    if conds != [] {
      var total := JoinWith(Parenthesised(conds), " ∧ ");
      LiftedOut(conds, '⨝');
      match FirstSelection(expr, 0)
      case Some(p) =>
        var j := LazyClose(expr, p + 2).value;
        var existing := expr[p + 2..j];
        SliceOut(expr, p + 2, j, '⨝');
        SliceOut(expr, p, j + 2, '⨝');
        SliceOut(expr, 0, p, '⨝');
        SliceOut(expr, j + 2, |expr|, '⨝');
        assert expr[..p] == expr[0..p] && expr[j + 2..] == expr[j + 2..|expr|];
        var template := "𝛔[" + existing + " ∧ " + total + "](";
        ExpandKeepsOut(template, expr[p..j + 2], existing, '⨝');
        if Expand(template, expr[p..j + 2], existing).Ok? {
          var v := Expand(template, expr[p..j + 2], existing).value;
          InsertVia(expr, p, j, conds, v);
          assert '⨝' !in expr[..p] + v + expr[j + 2..];
        }
      case None =>
    }
  }

  /** Only a backslash in the text or in a condition can make the template fail: without one,
      the conditions are always inserted. */
  lemma InsertWithoutBackslash(expr: string, conds: seq<string>)
    requires '\\' !in expr && forall k :: 0 <= k < |conds| ==> '\\' !in conds[k]
    ensures InsertConditions(expr, conds).Ok?
  {
    if conds != [] {
      var total := JoinWith(Parenthesised(conds), " ∧ ");
      LiftedOut(conds, '\\');
      match FirstSelection(expr, 0)
      case Some(p) =>
        var j := LazyClose(expr, p + 2).value;
        var existing := expr[p + 2..j];
        SliceOut(expr, p + 2, j, '\\');
        ExpandLiteral("𝛔[" + existing + " ∧ " + total + "](", expr[p..j + 2], existing);
      case None =>
    }
  }

  /** What the text without joins holds, besides the parentheses and ` X ` of the products, comes
      from the text of the term. */
  lemma {:induction false} UnjoinedKeepsOut(t: Term, x: char)
    requires x != '(' && x != ')' && x != ' ' && x != 'X' && x !in TermText(t)
    ensures x !in Unjoined(t)
  {
    match t
    case Relation(_) =>
    case JoinTerm(l, c, r) =>
      JoinSplit(TermText(l), c, TermText(r));
      UnjoinedKeepsOut(l, x);
      UnjoinedKeepsOut(r, x);
    case ProductTerm(l, r) =>
      UnjoinedKeepsOut(l, x);
      UnjoinedKeepsOut(r, x);
    case UnaryTerm(op, u) =>
      UnjoinedKeepsOut(u, x);
  }

  /** The join conditions of a well-formed term are balanced. */
  lemma {:induction false} ConditionsBalanced(t: Term)
    requires WellFormed(t)
    ensures forall k :: 0 <= k < |JoinConditions(t)| ==> Balanced(JoinConditions(t)[k])
  {
    match t
    case Relation(_) =>
    case JoinTerm(l, c, r) =>
      ConditionsBalanced(l);
      ConditionsBalanced(r);
      StripBalanced(c);
    case ProductTerm(l, r) =>
      ConditionsBalanced(l);
      ConditionsBalanced(r);
    case UnaryTerm(_, u) =>
      ConditionsBalanced(u);
  }

  /**
   * `remover_joins` on text that formats into a well-formed term without a selection: without a
   * join the text is left as it is; otherwise every join is replaced by a product and one new
   * selection around the whole text holds the join conditions, each in parentheses and in the
   * order of `JoinConditions`, as conjuncts that `quebrar_por_conjuncao` reads back.
   */
  lemma RemoveJoinsWithoutSelection(algebra: string, t: Term)
    requires WellFormed(t) && Format(algebra) == TermText(t) && '𝛔' !in TermText(t)
    ensures JoinConditions(t) == [] ==> JoinsRemoved(algebra) == Ok(Unjoined(t))
    ensures var c := JoinWith(Parenthesised(JoinConditions(t)), " ∧ ");
      JoinConditions(t) != [] ==>
        JoinsRemoved(algebra) == Ok("𝛔[" + c + "](" + Unjoined(t) + ")")
        && Conjuncts(c) == Parenthesised(JoinConditions(t))
  {
    RemoveJoinsOfTerm(algebra, t);
    if JoinConditions(t) != [] {
      UnjoinedKeepsOut(t, '𝛔');
      ConditionsBalanced(t);
      InsertWraps(Unjoined(t), JoinConditions(t));
    }
  }

  /** The join conditions of a term hold nothing its text lacks. */
  lemma {:induction false} ConditionsKeepOut(t: Term, x: char)
    requires x !in TermText(t)
    ensures forall k :: 0 <= k < |JoinConditions(t)| ==> x !in JoinConditions(t)[k]
  {
    match t
    case Relation(_) =>
    case JoinTerm(l, c, r) =>
      JoinSplit(TermText(l), c, TermText(r));
      ConditionsKeepOut(l, x);
      ConditionsKeepOut(r, x);
      StripOut(c, x);
    case ProductTerm(l, r) =>
      ConditionsKeepOut(l, x);
      ConditionsKeepOut(r, x);
    case UnaryTerm(_, u) =>
      ConditionsKeepOut(u, x);
  }

  /**
   * `remover_joins` on a selection `𝛔[e](…)` over joins, as the translation of a query with a
   * `WHERE` clause writes it: the joins become products and their conditions are added, each in
   * parentheses, as conjuncts after `e`.
   */
  lemma {:induction false} RemoveJoinsUnderSelection(algebra: string, e: string, u: Term)
    requires WellFormed(UnaryTerm("𝛔[" + e + "]", u)) && Format(algebra) == TermText(UnaryTerm("𝛔[" + e + "]", u))
    requires NoLazyStop(e) && '\\' !in e && '\\' !in TermText(u) && JoinConditions(u) != []
    ensures JoinsRemoved(algebra)
      == Ok("𝛔[" + e + " ∧ " + JoinWith(Parenthesised(JoinConditions(u)), " ∧ ") + "](" + Unjoined(u) + ")")
  {
    var conds := JoinConditions(u);
    RemoveJoinsOfTerm(algebra, UnaryTerm("𝛔[" + e + "]", u));
    ConditionsKeepOut(u, '\\');
    SelectionPieces(e, Unjoined(u), JoinWith(Parenthesised(conds), " ∧ "));
    InsertExtends([], e, Unjoined(u) + ")", conds);
  }

  lemma SelectionPieces(e: string, x: string, total: string)
    ensures "𝛔[" + e + "]" + "(" + x + ")" == [] + "𝛔[" + e + "](" + (x + ")")
    ensures [] + "𝛔[" + e + " ∧ " + total + "](" + (x + ")") == "𝛔[" + e + " ∧ " + total + "](" + x + ")"
  {
    assert "](" == "]" + "(";
  }
}

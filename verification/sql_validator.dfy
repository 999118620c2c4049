/**
 * Validation of a SELECT … FROM … [INNER JOIN … ON …]* [WHERE …] query against the catalogue
 * (parser.py): table and alias registration, column resolution, and the rewriting of every
 * comparison into the lower-case `alias.column OP operand` form the translator emits.
 *
 * The statement-level regular expressions (SELECT … FROM, the FROM/JOIN/WHERE pattern and the
 * JOIN iterator) are not modelled: their matches arrive as a `Statement` record. The comparison
 * patterns and the `AND` split inside a condition are modelled character by character.
 */
module SqlValidator {
  import opened Text
  import opened SqlSchema

  /** The source's `ValueError`s, with the context its messages add when they are re-raised. */
  datatype SqlError =
    | EmptyQuery
    | NotSelectFrom
    | EmptySelectClause
    | EmptySelectItem
    | UnparsableClauses
    | UnknownTable(table: string)
    | DuplicateAlias(alias: string)
    | EmptyOnCondition(table: string)
    | TrailingJoinText(text: string)
    | AliasNotInvolved(alias: string, column: string, involved: seq<string>)
    | ColumnNotInTable(column: string, table: string, alias: string)
    | ColumnNotFound(column: string, involved: seq<string>)
    | AmbiguousColumn(column: string, candidates: seq<string>)
    | MalformedCondition(part: string)
    | OperatorNotAllowed(op: string, part: string)
    | LeftOperand(part: string, cause: SqlError)
    | RightOperand(part: string, cause: SqlError)
    | InvalidValue(value: string, part: string)
    | InConditionPart(part: string, cause: SqlError)
    | InSelectItem(item: string, cause: SqlError, involved: seq<string>)
    | InWhere(cause: SqlError)
      /** parser.py:253 looks up a key the alias details never store, so every failure of an ON
          condition surfaces as that lookup failure, naming only the joined table. */
    | OnConditionLookupFailed(table: string)

  /** One entry of the insertion-ordered alias dictionary: alias to (normalised) table. */
  datatype AliasEntry = AliasEntry(alias: string, table: string)

  type AliasMap = seq<AliasEntry>

  /** A resolved column: its table, its normalised name, and the alias it was reached through. */
  datatype ColumnRef = ColumnRef(table: string, column: string, alias: string)

  predicate TablesKnown(schema: Schema, m: AliasMap)
  {
    forall i :: 0 <= i < |m| ==> m[i].table in schema
  }

  /** The dictionary's keys, in insertion order. */
  function Keys(m: AliasMap): (ks: seq<string>)
    ensures |ks| == |m|
  {
    seq(|m|, i requires 0 <= i < |m| => m[i].alias)
  }

  predicate UniqueAliases(m: AliasMap)
  {
    forall i, j :: 0 <= i < j < |m| ==> m[i].alias != m[j].alias
  }

  /** Dictionary lookup: the table stored under `alias`. */
  function Lookup(m: AliasMap, alias: string): Option<string>
  {
    if m == [] then None
    else if m[0].alias == alias then Some(m[0].table)
    else Lookup(m[1..], alias)
  }

  /** A lookup fails exactly for a missing key, and otherwise finds an entry of the dictionary. */
  lemma {:induction false} LookupSpec(m: AliasMap, alias: string)
    ensures Lookup(m, alias).None? <==> alias !in Keys(m)
    ensures Lookup(m, alias).Some? ==> AliasEntry(alias, Lookup(m, alias).value) in m
  {
    if m != [] {
      assert Keys(m) == [m[0].alias] + Keys(m[1..]);
      if m[0].alias != alias {
        LookupSpec(m[1..], alias);
      }
    }
  }

  /** With unique keys, looking up the key of an entry finds that entry's table. */
  lemma {:induction false} LookupEntry(m: AliasMap, e: AliasEntry)
    requires UniqueAliases(m) && e in m
    ensures Lookup(m, e.alias) == Some(e.table)
  {
    if m[0] != e {
      var i :| 0 <= i < |m| && m[i] == e;
      assert i > 0;
      assert m[1..][i - 1] == e;
      LookupEntry(m[1..], e);
    }
  }

  /** The entries whose table has column `col`, in dictionary order. */
  function Owners(schema: Schema, col: string, m: AliasMap): (r: AliasMap)
    ensures |r| <= |m|
  {
    if m == [] then []
    else
      var last := m[|m| - 1];
      Owners(schema, col, m[..|m| - 1]) + (if col in ColumnsOf(schema, last.table) then [last] else [])
  }

  /** An entry owns `col` exactly when it is in the dictionary and its table has that column. */
  lemma {:induction false} OwnersSpec(schema: Schema, col: string, m: AliasMap)
    ensures forall e :: e in Owners(schema, col, m) <==> e in m && col in ColumnsOf(schema, e.table)
  {
    if m != [] {
      var init := m[..|m| - 1];
      OwnersSpec(schema, col, init);
      assert m == init + [m[|m| - 1]];
    }
  }

  // ---------------------------------------------------------------------------------------------
  // Tables and aliases

  datatype TableRef = TableRef(name: string, alias: string)

  /** What `_validate_and_get_table_alias` leaves behind: the table, the used aliases and the
      table-to-alias details, both grown by the new entry. */
  datatype Registration = Registration(table: TableRef, used: set<string>, details: map<string, string>)

  /** The alias a table is registered under: the given one, normalised, or else the table's name. */
  function AliasToUse(tableName: string, alias: Option<string>): string
  {
    if alias.Some? && alias.value != "" then NormalizeName(alias.value) else NormalizeName(tableName)
  }

  /**
   * `_validate_and_get_table_alias`: the table must be in the catalogue and its alias (the table
   * name when none is given) must not be in use; the alias joins the used set and becomes the
   * table's entry in the details, replacing an earlier one.
   */
  function RegisterTable(schema: Schema, tableName: string, alias: Option<string>, used: set<string>,
                         details: map<string, string>): (r: Result<Registration, SqlError>)
    ensures r.Ok? <==> NormalizeName(tableName) in schema && AliasToUse(tableName, alias) !in used
    ensures r.Ok? ==>
      r.value.table == TableRef(NormalizeName(tableName), AliasToUse(tableName, alias))
      && r.value.used == used + {AliasToUse(tableName, alias)}
      && r.value.details == details[NormalizeName(tableName) := AliasToUse(tableName, alias)]
    ensures r.Err? ==> r.error == (if NormalizeName(tableName) !in schema then UnknownTable(tableName)
                                   else DuplicateAlias(AliasToUse(tableName, alias)))
  {
    var norm := NormalizeName(tableName);
    if norm !in schema then Err(UnknownTable(tableName))
    else
      var a := if alias.Some? && alias.value != "" then NormalizeName(alias.value) else norm;
      if a in used then Err(DuplicateAlias(a))
      else Ok(Registration(TableRef(norm, a), used + {a}, details[norm := a]))
  }

  // ---------------------------------------------------------------------------------------------
  // Columns

  /**
   * `_validate_column_name`. A qualified name `alias.column` (split at its first dot) must name an
   * involved alias and a column of its table; an unqualified name must belong to exactly one
   * involved table.
   */
  function ResolveColumn(schema: Schema, name: string, m: AliasMap): Result<ColumnRef, SqlError>
  {
    var shown := Strip(name);
    var full := NormalizeName(shown);
    if '.' in full then
      var a := BeforeFirst(full, '.');
      var c := AfterFirst(full, '.');
      match Lookup(m, a)
      case None => Err(AliasNotInvolved(a, shown, Keys(m)))
      case Some(t) =>
        if c in ColumnsOf(schema, t) then Ok(ColumnRef(t, c, a)) else Err(ColumnNotInTable(c, t, a))
    else
      var owners := Owners(schema, full, m);
      if |owners| == 0 then Err(ColumnNotFound(shown, Keys(m)))
      else if |owners| > 1 then Err(AmbiguousColumn(shown, Keys(owners)))
      else Ok(ColumnRef(owners[0].table, full, owners[0].alias))
  }

  /** `_validate_column_name` as the source runs it: a loop collecting the candidate aliases. */
  method ValidateColumnName(schema: Schema, colName: string, m: AliasMap) returns (r: Result<ColumnRef, SqlError>)
    ensures r == ResolveColumn(schema, colName, m)
  {
    var shown := Strip(colName);
    var full := NormalizeName(shown);
    if '.' in full {
      var a := BeforeFirst(full, '.');
      var c := AfterFirst(full, '.');
      var t := Lookup(m, a);
      if t.None? {
        return Err(AliasNotInvolved(a, shown, Keys(m)));
      }
      if c !in ColumnsOf(schema, t.value) {
        return Err(ColumnNotInTable(c, t.value, a));
      }
      return Ok(ColumnRef(t.value, c, a));
    }
    var matches := CandidateAliases(schema, full, m);
    if |matches| == 0 {
      return Err(ColumnNotFound(shown, Keys(m)));
    }
    if |matches| > 1 {
      return Err(AmbiguousColumn(shown, Keys(matches)));
    }
    return Ok(ColumnRef(matches[0].table, full, matches[0].alias));
  }

  /** The loop of `_validate_column_name` that gathers the involved tables having column `col`. */
  method CandidateAliases(schema: Schema, col: string, m: AliasMap) returns (matches: AliasMap)
    ensures matches == Owners(schema, col, m)
  {
    matches := [];
    for i := 0 to |m|
      invariant matches == Owners(schema, col, m[..i])
    {
      assert m[..i + 1][..i] == m[..i];
      if col in ColumnsOf(schema, m[i].table) {
        matches := matches + [m[i]];
      }
    }
    assert m[..|m|] == m;
  }

  /**
   * A resolved column comes from an involved alias whose table has that column, and it spells the
   * normalised name it was resolved from: `alias.column` when qualified, `column` when not.
   */
  lemma ResolveColumnSound(schema: Schema, name: string, m: AliasMap)
    ensures var r := ResolveColumn(schema, name, m);
      r.Ok? ==>
        AliasEntry(r.value.alias, r.value.table) in m && r.value.column in ColumnsOf(schema, r.value.table)
        && NormalizeName(Strip(name)) ==
             (if '.' in NormalizeName(Strip(name)) then r.value.alias + "." + r.value.column else r.value.column)
  {
    var full := NormalizeName(Strip(name));
    if '.' in full {
      LookupSpec(m, BeforeFirst(full, '.'));
      SplitFirstJoins(full, '.');
    } else {
      var owners := Owners(schema, full, m);
      OwnersSpec(schema, full, m);
      if |owners| == 1 {
        assert owners[0] in owners;
      }
    }
  }

  /** An unqualified column resolves exactly when one involved table has it, and is ambiguous
      when several have it. */
  lemma UnqualifiedResolution(schema: Schema, name: string, m: AliasMap)
    requires '.' !in NormalizeName(Strip(name))
    ensures ResolveColumn(schema, name, m).Ok? <==> |Owners(schema, NormalizeName(Strip(name)), m)| == 1
    ensures |Owners(schema, NormalizeName(Strip(name)), m)| > 1 ==>
              ResolveColumn(schema, name, m) == Err(AmbiguousColumn(Strip(name), Keys(Owners(schema, NormalizeName(Strip(name)), m))))
  {
  }

  /**
   * The text the rewriter emits for a column, `alias.column`, resolves back to that column: the
   * rewritten form is a fixed point of resolution.
   */
  lemma ResolveRendered(schema: Schema, ref: ColumnRef, m: AliasMap)
    requires UniqueAliases(m)
    requires AliasEntry(ref.alias, ref.table) in m && ref.column in ColumnsOf(schema, ref.table)
    requires '.' !in ref.alias && NormalizeName(ref.alias) == ref.alias && ref.alias != []
    ensures ResolveColumn(schema, ref.alias + "." + ref.column, m) == Ok(ref)
  {
    ColumnNameNormal(schema, ref.table, ref.column);
    RenderedNormal(ref.alias, ref.column);
    LookupEntry(m, AliasEntry(ref.alias, ref.table));
    ResolveQualified(schema, ref.alias + "." + ref.column, m, ref.alias, ref.column, ref.table);
  }

  /** A qualified name resolves through the alias before its first dot. */
  lemma ResolveQualified(schema: Schema, name: string, m: AliasMap, a: string, c: string, t: string)
    requires NormalizeName(Strip(name)) == a + "." + c && '.' !in a
    requires Lookup(m, a) == Some(t) && c in ColumnsOf(schema, t)
    ensures ResolveColumn(schema, name, m) == Ok(ColumnRef(t, c, a))
  {
    var s := a + "." + c;
    assert s[|a|] == '.' && s[|a| + 1..] == c;
    BeforeDot(a, c);
  }

  /** The text `alias.column` is left as it is by the normalisation `_validate_column_name` applies. */
  lemma RenderedNormal(a: string, c: string)
    requires NormalizeName(a) == a && NormalizeName(c) == c && a != []
    ensures NormalizeName(Strip(a + "." + c)) == a + "." + c
  {
    NormalizedJoin(a, c);
    StripStripped(a + "." + c);
  }

  lemma ColumnNameNormal(schema: Schema, table: string, col: string)
    requires col in ColumnsOf(schema, table)
    ensures NormalizeName(col) == col
  {
    var i :| 0 <= i < |LowerColumns(schema, table)| && LowerColumns(schema, table)[i] == col;
    NormalizeIdempotent(schema[table][i]);
  }

  lemma NormalizedJoin(a: string, c: string)
    requires NormalizeName(a) == a && NormalizeName(c) == c && a != []
    ensures NormalizeName(a + "." + c) == a + "." + c
  {
    var s := a + "." + c;
    StrippedLowerFixed(a);
    StrippedLowerFixed(c);
    assert Lower(s) == s by {
      forall k | 0 <= k < |s| ensures Lower(s)[k] == s[k]
      {
        if k < |a| { assert Lower(a)[k] == LowerChar(a[k]); }
        else if k > |a| { assert Lower(c)[k - |a| - 1] == LowerChar(c[k - |a| - 1]); }
      }
    }
    assert Stripped(s);
    StripStripped(s);
  }

  lemma StrippedLowerFixed(a: string)
    requires NormalizeName(a) == a
    ensures Lower(a) == a
  {
    NormalizedLowerCased(a);
    forall k | 0 <= k < |a| ensures Lower(a)[k] == a[k]
    {
      assert !('A' <= a[k] <= 'Z');
    }
  }

  lemma {:induction false} BeforeDot(a: string, c: string)
    requires '.' !in a
    ensures BeforeFirst(a + "." + c, '.') == a
  {
    if a != [] {
      assert (a + "." + c)[1..] == a[1..] + "." + c;
      BeforeDot(a[1..], c);
    }
  }

  // ---------------------------------------------------------------------------------------------
  // Comparisons

  predicate IsWordOrDot(c: char) { IsWordChar(c) || c == '.' }

  /** The longest prefix of word characters and dots: a `[\w.]+` that no later part of the
      pattern can make shorter, because what follows it never starts with such a character. */
  function WordDotPrefix(s: string): (r: string)
    ensures |r| <= |s| && r == s[..|r|]
    ensures |r| < |s| ==> !IsWordOrDot(s[|r|])
  {
    if s != [] && IsWordOrDot(s[0]) then
      var rest := WordDotPrefix(s[1..]);
      assert s[..|rest| + 1] == [s[0]] + s[1..][..|rest|];
      [s[0]] + rest
    else []
  }

  lemma {:induction false} WordDotPrefixChars(s: string)
    ensures forall i :: 0 <= i < |WordDotPrefix(s)| ==> IsWordOrDot(WordDotPrefix(s)[i])
  {
    if s != [] && IsWordOrDot(s[0]) {
      WordDotPrefixChars(s[1..]);
    }
  }

  function DigitPrefix(s: string): (r: string)
    ensures |r| <= |s| && r == s[..|r|]
    ensures |r| < |s| ==> !AsciiDigit(s[|r|])
  {
    if s != [] && AsciiDigit(s[0]) then
      var rest := DigitPrefix(s[1..]);
      assert s[..|rest| + 1] == [s[0]] + s[1..][..|rest|];
      [s[0]] + rest
    else []
  }

  predicate AllDigits(s: string) { forall i :: 0 <= i < |s| ==> AsciiDigit(s[i]) }

  /** The number alternatives of the literal pattern: `[+-]?\d+\.?\d*` or `[+-]?\.\d+`. */
  predicate IsNumberLiteral(v: string)
  {
    var u := if v != [] && (v[0] == '+' || v[0] == '-') then v[1..] else v;
    var d := DigitPrefix(u);
    (|d| >= 1 && (|d| == |u| || (u[|d|] == '.' && AllDigits(u[|d| + 1..]))))
    || (|u| >= 2 && u[0] == '.' && AllDigits(u[1..]))
  }

  /** The string alternatives of the literal pattern: `'.*?'` or `".*?"` (a dot stops at newlines). */
  predicate IsQuotedLiteral(v: string)
  {
    |v| >= 2 && ((v[0] == '\'' && v[|v| - 1] == '\'') || (v[0] == '"' && v[|v| - 1] == '"')) && '\n' !in v
  }

  /** Python's digit groups: digits, with single underscores allowed between two of them. */
  predicate DigitPart(s: string)
  {
    s != [] && AsciiDigit(s[0]) && AsciiDigit(s[|s| - 1])
    && forall i :: 0 <= i < |s| ==> AsciiDigit(s[i]) || (s[i] == '_' && i + 1 < |s| && AsciiDigit(s[i + 1]))
  }

  /** A decimal mantissa as `float` reads it: digits, digits with a fraction, or a fraction alone. */
  predicate Mantissa(w: string)
  {
    var a := BeforeFirst(w, '.');
    if |a| == |w| then DigitPart(w)
    else
      var b := AfterFirst(w, '.');
      (a == [] || DigitPart(a)) && (b == [] || DigitPart(b)) && (a != [] || b != [])
  }

  /** What Python's `float` accepts from already stripped text: an optional sign, then `inf`,
      `infinity` or `nan` in any letter case, or a mantissa with an optional exponent. */
  predicate IsPyFloat(v: string)
  {
    var u := if v != [] && (v[0] == '+' || v[0] == '-') then v[1..] else v;
    var w := Lower(u);
    if w in {"inf", "infinity", "nan"} then true
    else
      var mant := BeforeFirst(w, 'e');
      if |mant| == |w| then Mantissa(w)
      else
        var e := AfterFirst(w, 'e');
        var d := if e != [] && (e[0] == '+' || e[0] == '-') then e[1..] else e;
        Mantissa(mant) && DigitPart(d)
  }

  /** The check at parser.py:164-165: starts and ends with the same quote (one quote alone passes). */
  predicate QuotedOperand(v: string)
  {
    (StartsWith(v, "'") && EndsWith(v, "'")) || (StartsWith(v, "\"") && EndsWith(v, "\""))
  }

  /** Which of the three patterns recognised the comparison. */
  datatype OperandShape = LiteralOperand | ColumnOperand | OtherOperand

  datatype Comparison = Comparison(left: string, op: string, right: string, shape: OperandShape)

  /** The operator alternatives, in the order the patterns list them. */
  const OperatorAlternatives: seq<string> := ["=", ">", "<", "<=", ">=", "<>"]

  lemma AlternativesAllowed()
    ensures forall o :: o in OperatorAlternatives ==> o in AllowedOperators
  {
    forall o | o in OperatorAlternatives ensures o in AllowedOperators
    {
      var k :| 0 <= k < 6 && OperatorAlternatives[k] == o;
      if k == 0 { assert o == "="; } else if k == 1 { assert o == ">"; } else if k == 2 { assert o == "<"; }
      else if k == 3 { assert o == "<="; } else if k == 4 { assert o == ">="; } else { assert o == "<>"; }
    }
  }

  /** The right-hand operand after operator `op`: the pattern's `\s*` on both sides removed. */
  function OperandAfter(p: string, op: string): string
    requires StartsWith(p, op)
  {
    TrimRight(TrimLeft(p[|op|..]))
  }

  /** Whether the operand part of the pattern for `shape` matches `v`. */
  predicate Accepts(shape: OperandShape, v: string)
  {
    match shape
    case LiteralOperand => IsNumberLiteral(v) || IsQuotedLiteral(v)
    case ColumnOperand => v != [] && forall i :: 0 <= i < |v| ==> IsWordOrDot(v[i])
    case OtherOperand => '\n' !in v
  }

  /** The operand part of the pattern for `shape`, as a test on text. */
  function Acceptor(shape: OperandShape): string -> bool
  {
    v => Accepts(shape, v)
  }

  /** The first operator alternative from the `k`-th on that heads `p` and after which the operand
      part matches: the order in which the regular-expression engine backtracks through the
      alternation. */
  function FirstAccepted(p: string, alts: seq<string>, accepts: string -> bool, k: nat): (r: Option<string>)
    requires k <= |alts|
    ensures r.Some? ==> StartsWith(p, r.value)
    decreases |alts| - k
  {
    if k == |alts| then None
    else if StartsWith(p, alts[k]) && accepts(OperandAfter(p, alts[k])) then Some(alts[k])
    else FirstAccepted(p, alts, accepts, k + 1)
  }

  /** The alternative found heads `p` and lets the operand match; when none is found, no
      alternative would have. */
  lemma {:induction false} FirstAcceptedSpec(p: string, alts: seq<string>, accepts: string -> bool, k: nat)
    requires k <= |alts|
    ensures var r := FirstAccepted(p, alts, accepts, k);
      r.Some? ==> r.value in alts && accepts(OperandAfter(p, r.value))
    ensures FirstAccepted(p, alts, accepts, k).None? ==>
      forall j :: k <= j < |alts| && StartsWith(p, alts[j]) ==> !accepts(OperandAfter(p, alts[j]))
    decreases |alts| - k
  {
    if k < |alts| && !(StartsWith(p, alts[k]) && accepts(OperandAfter(p, alts[k]))) {
      FirstAcceptedSpec(p, alts, accepts, k + 1);
      assert FirstAccepted(p, alts, accepts, k) == FirstAccepted(p, alts, accepts, k + 1);
      if FirstAccepted(p, alts, accepts, k).None? {
        forall j | k <= j < |alts| && StartsWith(p, alts[j])
          ensures !accepts(OperandAfter(p, alts[j]))
        {
          if j == k {
            assert !accepts(OperandAfter(p, alts[k]));
          }
        }
      }
    }
  }

  /**
   * The three comparison patterns of `_rewrite_condition_part`, tried in turn on a stripped part:
   * column OP literal, column OP column, and the generic column OP anything-on-one-line.
   */
  function RecognizeComparison(part: string): Option<Comparison>
  {
    var left := WordDotPrefix(part);
    if left == [] then None
    else
      var p := TrimLeft(part[|left|..]);
      match FirstAccepted(p, OperatorAlternatives, Acceptor(LiteralOperand), 0)
      case Some(o) => Some(Comparison(left, o, OperandAfter(p, o), LiteralOperand))
      case None =>
        match FirstAccepted(p, OperatorAlternatives, Acceptor(ColumnOperand), 0)
        case Some(o) => Some(Comparison(left, o, OperandAfter(p, o), ColumnOperand))
        case None =>
          match FirstAccepted(p, OperatorAlternatives, Acceptor(OtherOperand), 0)
          case Some(o) => Some(Comparison(left, o, OperandAfter(p, o), OtherOperand))
          case None => None
  }

  /**
   * A recognised comparison is `left op right` as written: `left` a non-empty run of word
   * characters and dots heading the part, `op` one of the allowed operators, and `right` what
   * follows it (spaces trimmed), matching the operand pattern of the shape that recognised it.
   */
  lemma RecognizedShape(part: string)
    ensures var r := RecognizeComparison(part);
      r.Some? ==>
        r.value.left != [] && StartsWith(part, r.value.left)
        && (forall i :: 0 <= i < |r.value.left| ==> IsWordOrDot(r.value.left[i]))
        && r.value.op in AllowedOperators
        && Accepts(r.value.shape, r.value.right)
        && StartsWith(TrimLeft(part[|r.value.left|..]), r.value.op)
        && r.value.right == OperandAfter(TrimLeft(part[|r.value.left|..]), r.value.op)
  {
    var left := WordDotPrefix(part);
    WordDotPrefixChars(part);
    AlternativesAllowed();
    if left != [] {
      var p := TrimLeft(part[|left|..]);
      FirstAcceptedSpec(p, OperatorAlternatives, Acceptor(LiteralOperand), 0);
      FirstAcceptedSpec(p, OperatorAlternatives, Acceptor(ColumnOperand), 0);
      FirstAcceptedSpec(p, OperatorAlternatives, Acceptor(OtherOperand), 0);
    }
  }

  /** `alias.column`: how the rewriter writes a resolved column. */
  function Render(c: ColumnRef): string
  {
    c.alias + "." + c.column
  }

  /**
   * `_rewrite_condition_part`: the left operand (and, for column OP column, the right one) is
   * resolved and written `alias.column`; any other right operand must be a number or a quoted
   * string and is kept as written. An empty part rewrites to the empty text.
   */
  function RewriteConditionPart(schema: Schema, part: string, m: AliasMap): Result<string, SqlError>
  {
    var p := Strip(part);
    if p == [] then Ok("")
    else
      match RecognizeComparison(p)
      case None => Err(MalformedCondition(p))
      case Some(cmp) =>
        if cmp.op !in AllowedOperators then Err(OperatorNotAllowed(cmp.op, p))
        else
          match ResolveColumn(schema, cmp.left, m)
          case Err(e) => Err(LeftOperand(p, e))
          case Ok(l) =>
            if cmp.shape == ColumnOperand then
              match ResolveColumn(schema, cmp.right, m)
              case Err(e) => Err(RightOperand(p, e))
              case Ok(rc) => Ok(Render(l) + " " + cmp.op + " " + Render(rc))
            // parser.py:153-158 first tries the operand as a column, but the error it raises on
            // success is caught by its own handler: only the literal test below decides.
            else if IsPyFloat(cmp.right) || QuotedOperand(cmp.right) then
              Ok(Render(l) + " " + cmp.op + " " + cmp.right)
            else Err(InvalidValue(cmp.right, p))
  }

  /** A column reachable through the dictionary: its alias is involved and its table has it. */
  predicate Involved(schema: Schema, m: AliasMap, c: ColumnRef)
  {
    AliasEntry(c.alias, c.table) in m && c.column in ColumnsOf(schema, c.table)
  }

  /** What may stand right of the operator after rewriting: a literal kept verbatim or a column. */
  ghost predicate RewrittenOperand(schema: Schema, m: AliasMap, right: string)
  {
    IsPyFloat(right) || QuotedOperand(right) || exists rc :: Involved(schema, m, rc) && right == Render(rc)
  }

  /**
   * A non-empty part rewrites to `alias.column OP right` with an allowed operator, an involved
   * column on the left, and on the right a number, a quoted string or another involved column.
   */
  lemma RewrittenShape(schema: Schema, part: string, m: AliasMap)
    ensures var r := RewriteConditionPart(schema, part, m);
      r.Ok? && Strip(part) != [] ==>
        exists l, op, right :: Involved(schema, m, l) && op in AllowedOperators && RewrittenOperand(schema, m, right)
                               && r.value == Render(l) + " " + op + " " + right
  {
    var p := Strip(part);
    if p != [] && RewriteConditionPart(schema, part, m).Ok? {
      var cmp := RecognizeComparison(p).value;
      var l := ResolveColumn(schema, cmp.left, m).value;
      ResolveColumnSound(schema, cmp.left, m);
      assert Involved(schema, m, l);
      if cmp.shape == ColumnOperand {
        var rc := ResolveColumn(schema, cmp.right, m).value;
        ResolveColumnSound(schema, cmp.right, m);
        assert Involved(schema, m, rc);
        assert RewrittenOperand(schema, m, Render(rc));
      } else {
        assert RewrittenOperand(schema, m, cmp.right);
      }
    }
  }

  // ---------------------------------------------------------------------------------------------
  // AND-separated conditions

  predicate AndAt(s: string, j: nat)
  {
    j + 3 <= |s| && (s[j] == 'A' || s[j] == 'a') && (s[j + 1] == 'N' || s[j + 1] == 'n')
    && (s[j + 2] == 'D' || s[j + 2] == 'd')
  }

  /** The end of the whitespace run that starts at `i`. */
  function SpaceRunEnd(s: string, i: nat): (j: nat)
    requires i <= |s|
    ensures i <= j <= |s| && (j == |s| || !IsSpace(s[j]))
    decreases |s| - i
  {
    if i < |s| && IsSpace(s[i]) then SpaceRunEnd(s, i + 1) else i
  }

  /** Whether `\s+AND\s+` (any letter case) matches at `a`, and where that match ends. */
  function SeparatorAt(s: string, a: nat): (r: Option<nat>)
    requires a <= |s|
    ensures r.Some? ==> a < r.value <= |s|
  {
    if a < |s| && IsSpace(s[a]) then
      var j := SpaceRunEnd(s, a);
      if AndAt(s, j) && j + 3 < |s| && IsSpace(s[j + 3]) then Some(SpaceRunEnd(s, j + 3)) else None
    else None
  }

  /** No separator matches anywhere in `s`. */
  predicate NoSeparator(s: string)
  {
    forall a :: 0 <= a <= |s| ==> SeparatorAt(s, a).None?
  }

  /** The leftmost separator at or after `i`: its start and end. */
  function NextSeparator(s: string, i: nat): (r: Option<(nat, nat)>)
    requires i <= |s|
    ensures r.Some? ==> i <= r.value.0 < r.value.1 <= |s| && SeparatorAt(s, r.value.0) == Some(r.value.1)
    decreases |s| - i
  {
    if i == |s| then None
    else
      match SeparatorAt(s, i)
      case Some(b) => Some((i, b))
      case None => NextSeparator(s, i + 1)
  }

  /** The separator found is the leftmost one: none starts between `i` and it (or anywhere from `i`
      on when none is found). */
  lemma {:induction false} NextSeparatorLeftmost(s: string, i: nat)
    requires i <= |s|
    ensures forall a :: i <= a <= |s| && (NextSeparator(s, i).None? || a < NextSeparator(s, i).value.0) ==>
                          SeparatorAt(s, a).None?
    decreases |s| - i
  {
    if i < |s| && SeparatorAt(s, i).None? {
      NextSeparatorLeftmost(s, i + 1);
    }
  }

  /** `re.split(r'\s+AND\s+', s, flags=re.IGNORECASE)` */
  function SplitOnAnd(s: string): (parts: seq<string>)
    ensures |parts| >= 1
    decreases |s|
  {
    match NextSeparator(s, 0)
    case None => [s]
    case Some((a, b)) => [s[..a]] + SplitOnAnd(s[b..])
  }

  /** Splitting never leaves a separator inside a part. */
  lemma {:induction false} SplitOnAndParts(s: string)
    ensures forall k :: 0 <= k < |SplitOnAnd(s)| ==> NoSeparator(SplitOnAnd(s)[k])
    decreases |s|
  {
    NextSeparatorLeftmost(s, 0);
    match NextSeparator(s, 0)
    case None =>
    case Some((a, b)) =>
      SplitOnAndParts(s[b..]);
      forall x | 0 <= x <= a ensures SeparatorAt(s[..a], x).None?
      {
        if SeparatorAt(s[..a], x).Some? {
          SeparatorInPrefix(s, a, x);
        }
      }
      assert NoSeparator(s[..a]);
  }

  /** Text without a separator is a single part. */
  lemma SplitOnAndSingle(s: string)
    requires NoSeparator(s)
    ensures SplitOnAnd(s) == [s]
  {
  }

  /** A separator inside a prefix of `s` is a separator of `s`. */
  lemma SeparatorInPrefix(s: string, n: nat, x: nat)
    requires x <= n <= |s| && SeparatorAt(s[..n], x).Some?
    ensures SeparatorAt(s, x).Some?
  {
    var t := s[..n];
    var j := SpaceRunEnd(t, x);
    SpaceRunInPrefix(s, n, x);
    assert t[j..j + 4] == s[j..j + 4];
  }

  lemma {:induction false} SpaceRunInPrefix(s: string, n: nat, x: nat)
    requires x <= n <= |s|
    ensures SpaceRunEnd(s[..n], x) < n ==> SpaceRunEnd(s, x) == SpaceRunEnd(s[..n], x)
    decreases n - x
  {
    if x < n && IsSpace(s[x]) {
      SpaceRunInPrefix(s, n, x + 1);
    }
  }

  /** `s.strip('()')`: drop parentheses (only) from both ends. */
  function StripParens(s: string): (r: string)
    ensures |r| <= |s|
    decreases |s|
  {
    if s != [] && (s[0] == '(' || s[0] == ')') then StripParens(s[1..])
    else if s != [] && (s[|s| - 1] == '(' || s[|s| - 1] == ')') then StripParens(s[..|s| - 1])
    else s
  }

  /** The result of `strip('()')` neither starts nor ends with a parenthesis. */
  lemma {:induction false} StripParensEnds(s: string)
    ensures var r := StripParens(s);
      r == [] || (r[0] != '(' && r[0] != ')' && r[|r| - 1] != '(' && r[|r| - 1] != ')')
    decreases |s|
  {
    if s != [] && (s[0] == '(' || s[0] == ')') {
      StripParensEnds(s[1..]);
    } else if s != [] && (s[|s| - 1] == '(' || s[|s| - 1] == ')') {
      StripParensEnds(s[..|s| - 1]);
    }
  }

  // ---------------------------------------------------------------------------------------------
  // Conditions

  /** What one AND-separated part contributes: nothing (it is empty once stripped), its rewritten
      text, or the error that aborts the condition. */
  datatype PartOutcome = Skipped | Rewritten(text: string) | Failed(error: SqlError)

  /** A rewriter of single comparisons: `_rewrite_condition_part` with its catalogue and aliases. */
  type PartRewriter = string -> Result<string, SqlError>

  function RewriterFor(schema: Schema, m: AliasMap): PartRewriter
  {
    p => RewriteConditionPart(schema, p, m)
  }

  /** One part: strip it and its outer parentheses; an empty part is skipped. */
  function PartOutcomeOf(rw: PartRewriter, part: string): PartOutcome
  {
    var p := StripParens(Strip(part));
    if p == [] then Skipped
    else
      match rw(p)
      case Err(e) => Failed(InConditionPart(p, e))
      case Ok(w) => Rewritten(w)
  }

  function Outcomes(rw: PartRewriter, parts: seq<string>): (outs: seq<PartOutcome>)
    ensures |outs| == |parts|
  {
    seq(|parts|, i requires 0 <= i < |parts| => PartOutcomeOf(rw, parts[i]))
  }

  /** The texts of the rewritten parts, in order. */
  function Texts(outs: seq<PartOutcome>): seq<string>
  {
    if outs == [] then []
    else Texts(outs[..|outs| - 1]) + (if outs[|outs| - 1].Rewritten? then [outs[|outs| - 1].text] else [])
  }

  /** The outcomes gathered in order; the first failure aborts. */
  function Collect(outs: seq<PartOutcome>): Result<seq<string>, SqlError>
  {
    if outs == [] then Ok([]) else Extend(Collect(outs[..|outs| - 1]), outs[|outs| - 1])
  }

  /** One step of `Collect`: an earlier failure stays, a new failure aborts, a text is appended. */
  function Extend(sofar: Result<seq<string>, SqlError>, o: PartOutcome): Result<seq<string>, SqlError>
  {
    match sofar
    case Err(e) => Err(e)
    case Ok(done) =>
      match o
      case Skipped => Ok(done)
      case Rewritten(w) => Ok(done + [w])
      case Failed(e) => Err(e)
  }

  lemma CollectStep(outs: seq<PartOutcome>, i: nat)
    requires i < |outs|
    ensures Collect(outs[..i + 1]) == Extend(Collect(outs[..i]), outs[i])
  {
    assert outs[..i + 1][..i] == outs[..i];
  }

  /**
   * Gathering succeeds exactly when no part fails, with the rewritten texts in order; otherwise it
   * reports the error of the first part that fails.
   */
  lemma {:induction false} CollectSpec(outs: seq<PartOutcome>)
    ensures Collect(outs).Ok? <==> forall i :: 0 <= i < |outs| ==> !outs[i].Failed?
    ensures Collect(outs).Ok? ==> Collect(outs).value == Texts(outs)
    ensures Collect(outs).Err? ==>
      exists i :: 0 <= i < |outs| && outs[i] == Failed(Collect(outs).error)
                  && forall j :: 0 <= j < i ==> !outs[j].Failed?
  {
    if outs != [] {
      var init := outs[..|outs| - 1];
      CollectSpec(init);
      assert forall i :: 0 <= i < |init| ==> init[i] == outs[i];
      if Collect(init).Err? {
        var i :| 0 <= i < |init| && init[i] == Failed(Collect(init).error)
                 && forall j :: 0 <= j < i ==> !init[j].Failed?;
        assert outs[i] == Failed(Collect(outs).error);
      } else if outs[|outs| - 1].Failed? {
        assert outs[|outs| - 1] == Failed(Collect(outs).error);
      }
    }
  }

  /** Once a prefix of the outcomes fails, the whole sequence fails with the same error. */
  lemma {:induction false} CollectErrStays(outs: seq<PartOutcome>, k: nat, e: Result<seq<string>, SqlError>)
    requires k <= |outs| && e.Err? && Collect(outs[..k]) == e
    ensures Collect(outs) == e
    decreases |outs| - k
  {
    if k == |outs| {
      assert outs[..k] == outs;
    } else {
      CollectStep(outs, k);
      CollectErrStays(outs, k + 1, e);
    }
  }

  /** `_process_conditions`: split at AND, strip each part and its outer parentheses, skip empty
      parts, rewrite the rest; the first failing part aborts the whole condition. */
  function RewriteConditions(rw: PartRewriter, cond: string): Result<seq<string>, SqlError>
  {
    if cond == [] then Ok([]) else Collect(Outcomes(rw, SplitOnAnd(cond)))
  }

  /** `_process_conditions` as the source runs it: a loop over the parts. */
  method ProcessConditions(rw: PartRewriter, cond: string) returns (r: Result<seq<string>, SqlError>)
    ensures r == RewriteConditions(rw, cond)
  {
    if cond == [] {
      return Ok([]);
    }
    var parts := SplitOnAnd(cond);
    ghost var outs := Outcomes(rw, parts);
    var rewritten: seq<string> := [];
    for i := 0 to |parts|
      invariant Collect(outs[..i]) == Ok(rewritten)
    {
      CollectStep(outs, i);
      var p := StripParens(Strip(parts[i]));
      if p != [] {
        var w := rw(p);
        if w.Err? {
          r := Err(InConditionPart(p, w.error));
          CollectErrStays(outs, i + 1, r);
          return;
        }
        rewritten := rewritten + [w.value];
      }
    }
    assert outs[..|outs|] == outs;
    return Ok(rewritten);
  }
}

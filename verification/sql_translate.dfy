/**
 * `convert_to_relational_algebra` (parser.py:259-302): a validated query becomes the text
 * `𝝿[attributes](𝛔[predicates](chain))`, where the chain joins the FROM table and every JOIN table
 * left-deep, each table written `table[alias]`.
 *
 * The source looks each table's alias up in `table_alias_details`, which maps a table to the alias
 * it was registered under last. When a table occurs twice (a self-join) both occurrences get the
 * later alias; `TranslateOwn` is the translation that uses each occurrence's own alias.
 */
module SqlTranslator {
  import opened Text
  import opened SqlSchema
  import opened SqlValidator
  import opened SqlParse

  /** `table[alias]`: one table of the chain. */
  function Leaf(table: string, alias: string): string
  {
    table + "[" + alias + "]"
  }

  /** The chain after `n` JOIN steps: `base`, then `(chain ⨝ leaf)` for each of the first `n` leaves. */
  function Chain(base: string, leaves: seq<string>, n: nat): string
    requires n <= |leaves|
  {
    if n == 0 then base else "(" + Chain(base, leaves, n - 1) + " ⨝ " + leaves[n - 1] + ")"
  }

  /** The tables of the query in order: the FROM table, then the JOIN tables. */
  function TableOrder(p: Parsed): (order: seq<string>)
    ensures |order| == |p.joins| + 1 && order[0] == p.from.name
  {
    [p.from.name] + seq(|p.joins|, k requires 0 <= k < |p.joins| => p.joins[k].table)
  }

  /** The lookups the translator makes succeed: every table of the query is in the catalogue and in
      the details. */
  predicate Translatable(schema: Schema, p: Parsed)
  {
    forall t :: t in TableOrder(p) ==> t in schema && t in p.details
  }

  /** The JOIN leaves as the source writes them, with the alias the details give each table. */
  function DetailLeaves(schema: Schema, p: Parsed): (leaves: seq<string>)
    requires Translatable(schema, p)
    ensures |leaves| == |p.joins|
  {
    seq(|p.joins|, k requires 0 <= k < |p.joins| =>
      assert TableOrder(p)[k + 1] == p.joins[k].table;
      Leaf(p.joins[k].table, p.details[p.joins[k].table]))
  }

  /** The predicates of the first `n` JOINs, in JOIN order. */
  function JoinPredicates(joins: seq<JoinInfo>, n: nat): seq<string>
    requires n <= |joins|
  {
    if n == 0 then [] else JoinPredicates(joins, n - 1) + joins[n - 1].rewritten
  }

  /** All predicates of the σ: the WHERE ones first, then those of each JOIN in order. */
  function Predicates(p: Parsed): seq<string>
  {
    p.whereRewritten + JoinPredicates(p.joins, |p.joins|)
  }

  /** `𝛔[cond](base)`, or `base` alone when the joined predicates are empty text. */
  function Selection(cond: string, base: string): string
  {
    if cond != "" then "𝛔[" + cond + "](" + base + ")" else base
  }

  /** The attributes `*` contributes for one table: every catalogue column, normalised, under
      `alias`, in catalogue order. */
  function ExpandTable(schema: Schema, table: string, alias: string): (attrs: seq<string>)
    requires table in schema
    ensures |attrs| == |schema[table]|
  {
    seq(|schema[table]|, i requires 0 <= i < |schema[table]| => alias + "." + NormalizeName(schema[table][i]))
  }

  /** The `*` expansion over the first `n` tables of `order`: a table already expanded is skipped,
      the others are expanded under the alias the details give them. */
  function StarColumns(schema: Schema, details: map<string, string>, order: seq<string>, n: nat): seq<string>
    requires n <= |order| && forall t :: t in order ==> t in schema && t in details
  {
    if n == 0 then []
    else
      var t := order[n - 1];
      StarColumns(schema, details, order, n - 1) + (if t in order[..n - 1] then [] else ExpandTable(schema, t, details[t]))
  }

  /** The SELECT columns, each written `alias.column`. */
  function Rendered(cols: seq<ColumnRef>): (attrs: seq<string>)
    ensures |attrs| == |cols|
  {
    seq(|cols|, k requires 0 <= k < |cols| => Render(cols[k]))
  }

  /** The projection list of the source. */
  function Projection(schema: Schema, p: Parsed): seq<string>
    requires Translatable(schema, p)
  {
    match p.select
    case AllColumns => StarColumns(schema, p.details, TableOrder(p), |p.joins| + 1)
    case Columns(cols) => Rendered(cols)
  }

  /** `𝝿[attrs](body)` */
  function Projected(attrs: seq<string>, body: string): string
  {
    "𝝿[" + JoinWith(attrs, ", ") + "](" + body + ")"
  }

  /** `convert_to_relational_algebra` */
  function Translate(schema: Schema, p: Parsed): string
    requires Translatable(schema, p)
  {
    var base := Leaf(p.from.name, p.details[p.from.name]);
    Projected(Projection(schema, p),
              Selection(JoinWith(Predicates(p), " ∧ "), Chain(base, DetailLeaves(schema, p), |p.joins|)))
  }

  /** `convert_to_relational_algebra` as the source runs it: one loop builds the chain and gathers
      the JOIN predicates, another builds the projection list. */
  method Convert(schema: Schema, p: Parsed) returns (ra: string)
    requires Translatable(schema, p)
    ensures ra == Translate(schema, p)
  {
    assert p.from.name in TableOrder(p);
    var leaves := DetailLeaves(schema, p);
    var base := Leaf(p.from.name, p.details[p.from.name]);
    var b0 := base;
    var joinPreds: seq<string> := [];
    for i := 0 to |p.joins|
      invariant base == Chain(b0, leaves, i)
      invariant joinPreds == JoinPredicates(p.joins, i)
    {
      assert TableOrder(p)[i + 1] == p.joins[i].table;
      var t := p.joins[i].table;
      assert leaves[i] == Leaf(t, p.details[t]);
      base := "(" + base + " ⨝ " + Leaf(t, p.details[t]) + ")";
      joinPreds := joinPreds + p.joins[i].rewritten;
    }
    var cond := JoinWith(p.whereRewritten + joinPreds, " ∧ ");
    var selection := base;
    if cond != "" {
      selection := "𝛔[" + cond + "](" + base + ")";
    }
    var attrs: seq<string>;
    match p.select {
      case AllColumns =>
        attrs := ExpandStar(schema, p.details, TableOrder(p));
      case Columns(cols) =>
        attrs := RenderColumns(cols);
    }
    assert Predicates(p) == p.whereRewritten + joinPreds;
    assert selection == Selection(JoinWith(Predicates(p), " ∧ "), Chain(b0, leaves, |p.joins|));
    assert attrs == Projection(schema, p);
    ra := "𝝿[" + JoinWith(attrs, ", ") + "](" + selection + ")";
  }

  /** The explicit-columns loop: `alias.column` for each SELECT column, in order. */
  method RenderColumns(cols: seq<ColumnRef>) returns (attrs: seq<string>)
    ensures attrs == Rendered(cols)
  {
    attrs := [];
    for k := 0 to |cols|
      invariant attrs == Rendered(cols)[..k]
    {
      assert Rendered(cols)[..k + 1] == Rendered(cols)[..k] + [Render(cols[k])];
      attrs := attrs + [cols[k].alias + "." + cols[k].column];
    }
    assert Rendered(cols)[..|cols|] == Rendered(cols);
  }

  /** The `*` loop: each table not yet processed is expanded under its alias from the details. */
  method ExpandStar(schema: Schema, details: map<string, string>, order: seq<string>) returns (attrs: seq<string>)
    requires forall t :: t in order ==> t in schema && t in details
    ensures attrs == StarColumns(schema, details, order, |order|)
  {
    attrs := [];
    var processed: set<string> := {};
    for i := 0 to |order|
      invariant attrs == StarColumns(schema, details, order, i)
      invariant forall t :: t in processed <==> t in order[..i]
    {
      var t := order[i];
      assert order[..i + 1] == order[..i] + [t];
      if t !in processed {
        var more := ExpandColumns(schema, t, details[t]);
        attrs := attrs + more;
        processed := processed + {t};
      }
    }
  }

  /** The inner loop of the `*` expansion: the columns of one table under one alias. */
  method ExpandColumns(schema: Schema, table: string, alias: string) returns (attrs: seq<string>)
    requires table in schema
    ensures attrs == ExpandTable(schema, table, alias)
  {
    var cols := schema[table];
    attrs := [];
    for j := 0 to |cols|
      invariant attrs == ExpandTable(schema, table, alias)[..j]
    {
      attrs := attrs + [alias + "." + NormalizeName(cols[j])];
    }
  }

  // ---------------------------------------------------------------------------------------------
  // What the translation promises

  /** A validated query can be translated: every table it names is in the catalogue and in the
      details. */
  lemma ConsistentTranslatable(schema: Schema, p: Parsed)
    requires Consistent(schema, p)
    ensures Translatable(schema, p)
  {
    forall t | t in TableOrder(p)
      ensures t in schema && t in p.details
    {
      var k :| 0 <= k < |TableOrder(p)| && TableOrder(p)[k] == t;
      TableOrderEntries(schema, p, k);
      DetailsOfHas(p.aliases, k);
    }
  }

  /** The tables of the query are those of the alias dictionary, in order. */
  lemma TableOrderEntries(schema: Schema, p: Parsed, k: nat)
    requires Consistent(schema, p) && k < |TableOrder(p)|
    ensures TableOrder(p)[k] == p.aliases[k].table
  {
    if k > 0 {
      assert TableOrder(p)[k] == p.joins[k - 1].table;
    }
  }

  /** Whatever `parse_validate_sql` accepts, `convert_to_relational_algebra` can translate. */
  lemma ParsedTranslatable(schema: Schema, query: string, matched: Option<StatementMatch>)
    ensures var r := ParseValidate(schema, query, matched);
      r.Ok? ==> Translatable(schema, r.value)
  {
    ParseValidateSound(schema, query, matched);
    var r := ParseValidate(schema, query, matched);
    if r.Ok? {
      ConsistentTranslatable(schema, r.value);
    }
  }

  /** A σ is written exactly when the joined predicates are not empty text: when there is more than
      one predicate, or a single non-empty one. */
  lemma TranslateSelects(schema: Schema, p: Parsed)
    requires Translatable(schema, p)
    ensures var chain := Chain(Leaf(p.from.name, p.details[p.from.name]), DetailLeaves(schema, p), |p.joins|);
      Translate(schema, p) ==
        Projected(Projection(schema, p),
                  if Predicates(p) == [] || Predicates(p) == [""] then chain
                  else "𝛔[" + JoinWith(Predicates(p), " ∧ ") + "](" + chain + ")")
  {
    JoinWithEmpty(Predicates(p), " ∧ ");
  }

  /** The predicates of the first `k` JOINs begin those of the first `n`. */
  lemma {:induction false} JoinPredicatesPrefix(joins: seq<JoinInfo>, k: nat, n: nat)
    requires k <= n <= |joins|
    ensures |JoinPredicates(joins, k)| <= |JoinPredicates(joins, n)|
    ensures JoinPredicates(joins, n)[..|JoinPredicates(joins, k)|] == JoinPredicates(joins, k)
    decreases n - k
  {
    if k < n {
      JoinPredicatesPrefix(joins, k, n - 1);
      var a := JoinPredicates(joins, n - 1);
      assert JoinPredicates(joins, n)[..|a|] == a;
    }
  }

  /** Each JOIN's predicates sit together among the JOIN predicates, in JOIN order; in the σ they
      follow all WHERE predicates (`Predicates`). */
  lemma JoinPredicatesInOrder(joins: seq<JoinInfo>, k: nat)
    requires k < |joins|
    ensures var all := JoinPredicates(joins, |joins|);
      |JoinPredicates(joins, k)| + |joins[k].rewritten| <= |all|
      && all[|JoinPredicates(joins, k)|..|JoinPredicates(joins, k)| + |joins[k].rewritten|] == joins[k].rewritten
  {
    JoinPredicatesPrefix(joins, k + 1, |joins|);
    var a := JoinPredicates(joins, k);
    var b := JoinPredicates(joins, k + 1);
    assert b == a + joins[k].rewritten;
    var all := JoinPredicates(joins, |joins|);
    assert all[..|b|] == b;
    assert all[|a|..|b|] == b[|a|..];
  }

  /** `t` occurs in `s` at index `i`. */
  predicate OccursAt(s: string, t: string, i: nat)
  {
    i + |t| <= |s| && s[i..i + |t|] == t
  }

  /** `t` occurs in `s` as a contiguous piece. */
  ghost predicate Contains(s: string, t: string)
  {
    exists i: nat :: OccursAt(s, t, i)
  }

  lemma ContainsMiddle(a: string, b: string, c: string)
    ensures Contains(a + b + c, b)
  {
    assert (a + b + c)[|a|..|a| + |b|] == b;
    assert OccursAt(a + b + c, b, |a|);
  }

  lemma ContainsTrans(s: string, t: string, u: string)
    requires Contains(s, t) && Contains(t, u)
    ensures Contains(s, u)
  {
    var i: nat :| OccursAt(s, t, i);
    var j: nat :| OccursAt(t, u, j);
    forall q | 0 <= q < |u|
      ensures s[i + j + q] == u[q]
    {
      assert u[q] == t[j + q] == s[i + j + q];
    }
    assert s[i + j..i + j + |u|] == u;
    assert OccursAt(s, u, i + j);
  }

  /** Every leaf of the chain, and its base, occurs in it. */
  lemma {:induction false} ChainContains(base: string, leaves: seq<string>, n: nat)
    requires n <= |leaves|
    ensures Contains(Chain(base, leaves, n), base)
    ensures forall k :: 0 <= k < n ==> Contains(Chain(base, leaves, n), leaves[k])
  {
    if n == 0 {
      ContainsMiddle([], base, []);
      assert [] + base + [] == base;
    } else {
      var prev := Chain(base, leaves, n - 1);
      var c := Chain(base, leaves, n);
      ChainContains(base, leaves, n - 1);
      assert c == "(" + prev + (" ⨝ " + leaves[n - 1] + ")");
      ContainsMiddle("(", prev, " ⨝ " + leaves[n - 1] + ")");
      assert c == ("(" + prev + " ⨝ ") + leaves[n - 1] + ")";
      ContainsMiddle("(" + prev + " ⨝ ", leaves[n - 1], ")");
      ContainsTrans(c, prev, base);
      forall k | 0 <= k < n - 1
        ensures Contains(c, leaves[k])
      {
        ContainsTrans(c, prev, leaves[k]);
      }
    }
  }

  /** Every attribute of every table of `order` is in the `*` expansion, under the table's alias. */
  lemma {:induction false} StarColumnsCovers(schema: Schema, details: map<string, string>, order: seq<string>, n: nat,
                                             k: nat, i: nat)
    requires n <= |order| && forall t :: t in order ==> t in schema && t in details
    requires k < n && i < |schema[order[k]]|
    ensures ExpandTable(schema, order[k], details[order[k]])[i] in StarColumns(schema, details, order, n)
  {
    var x := ExpandTable(schema, order[k], details[order[k]])[i];
    var t := order[n - 1];
    var prev := StarColumns(schema, details, order, n - 1);
    var add := if t in order[..n - 1] then [] else ExpandTable(schema, t, details[t]);
    assert StarColumns(schema, details, order, n) == prev + add;
    if k < n - 1 {
      StarColumnsCovers(schema, details, order, n - 1, k, i);
      assert x in prev;
    } else if t in order[..n - 1] {
      var j :| 0 <= j < n - 1 && order[..n - 1][j] == t;
      assert order[j] == order[k];
      StarColumnsCovers(schema, details, order, n - 1, j, i);
      assert x in prev;
    } else {
      assert x == add[i];
    }
  }

  /** The explicit projection list names, in SELECT order, columns reachable through the dictionary. */
  lemma ProjectionColumns(schema: Schema, p: Parsed)
    requires Consistent(schema, p) && p.select.Columns?
    ensures Translatable(schema, p)
    ensures |Projection(schema, p)| == |p.items|
    ensures forall k :: 0 <= k < |p.items| ==>
      Projection(schema, p)[k] == Render(p.select.cols[k]) && Involved(schema, p.aliases, p.select.cols[k])
  {
    ConsistentTranslatable(schema, p);
  }

  // ---------------------------------------------------------------------------------------------
  // Self-joins

  /** No table is registered twice. */
  predicate DistinctTables(m: AliasMap)
  {
    forall a, b :: 0 <= a < b < |m| ==> m[a].table != m[b].table
  }

  /** Each table occurrence with its own alias: the FROM table, then the JOINs. */
  function Instances(p: Parsed): (insts: seq<TableRef>)
    ensures |insts| == |p.joins| + 1 && insts[0] == p.from
  {
    [p.from] + seq(|p.joins|, k requires 0 <= k < |p.joins| => TableRef(p.joins[k].table, p.joins[k].alias))
  }

  /** The JOIN leaves, each JOIN under its own alias. */
  function OwnLeaves(p: Parsed): (leaves: seq<string>)
    ensures |leaves| == |p.joins|
  {
    seq(|p.joins|, k requires 0 <= k < |p.joins| => Leaf(p.joins[k].table, p.joins[k].alias))
  }

  /** The `*` expansion of the first `n` occurrences, each under its own alias. */
  function ExpandAll(schema: Schema, insts: seq<TableRef>, n: nat): seq<string>
    requires n <= |insts| && forall k :: 0 <= k < |insts| ==> insts[k].name in schema
  {
    if n == 0 then [] else ExpandAll(schema, insts, n - 1) + ExpandTable(schema, insts[n - 1].name, insts[n - 1].alias)
  }

  /** The catalogue has every table of the query. */
  predicate TablesInCatalogue(schema: Schema, p: Parsed)
  {
    forall k :: 0 <= k < |Instances(p)| ==> Instances(p)[k].name in schema
  }

  /** The translation with every table occurrence under its own alias: the FROM alias for the FROM
      table, each JOIN's alias for its table. */
  function TranslateOwn(schema: Schema, p: Parsed): string
    requires TablesInCatalogue(schema, p)
  {
    var attrs := match p.select
      case AllColumns => ExpandAll(schema, Instances(p), |p.joins| + 1)
      case Columns(cols) => Rendered(cols);
    Projected(attrs, Selection(JoinWith(Predicates(p), " ∧ "),
                               Chain(Leaf(p.from.name, p.from.alias), OwnLeaves(p), |p.joins|)))
  }

  /** The occurrences of a validated query are the entries of its dictionary. */
  lemma InstancesEntries(schema: Schema, p: Parsed, k: nat)
    requires Consistent(schema, p) && k < |Instances(p)|
    ensures Instances(p)[k] == TableRef(p.aliases[k].table, p.aliases[k].alias)
  {
    if k > 0 {
      assert Instances(p)[k] == TableRef(p.joins[k - 1].table, p.joins[k - 1].alias);
    }
  }

  /** In the corrected translation every alias of the dictionary labels a leaf of the chain, so every
      alias a predicate uses is bound. */
  lemma OwnChainLabelsAll(schema: Schema, p: Parsed)
    requires Consistent(schema, p)
    ensures forall k :: 0 <= k < |p.aliases| ==>
      Contains(Chain(Leaf(p.from.name, p.from.alias), OwnLeaves(p), |p.joins|), Leaf(p.aliases[k].table, p.aliases[k].alias))
  {
    var base := Leaf(p.from.name, p.from.alias);
    ChainContains(base, OwnLeaves(p), |p.joins|);
    forall k | 0 <= k < |p.aliases|
      ensures Contains(Chain(base, OwnLeaves(p), |p.joins|), Leaf(p.aliases[k].table, p.aliases[k].alias))
    {
      if k > 0 {
        assert OwnLeaves(p)[k - 1] == Leaf(p.aliases[k].table, p.aliases[k].alias);
      }
    }
  }

  /** Without a self-join the source's translation is the corrected one. */
  lemma NoSelfJoinAgrees(schema: Schema, p: Parsed)
    requires Consistent(schema, p) && DistinctTables(p.aliases)
    ensures Translatable(schema, p) && TablesInCatalogue(schema, p)
    ensures Translate(schema, p) == TranslateOwn(schema, p)
  {
    ConsistentTranslatable(schema, p);
    var m := p.aliases;
    forall k | 0 <= k < |Instances(p)|
      ensures Instances(p)[k].name in schema
    {
      InstancesEntries(schema, p, k);
    }
    DetailsOfDistinct(m, 0);
    assert p.details[p.from.name] == p.from.alias;
    forall k | 0 <= k < |p.joins|
      ensures DetailLeaves(schema, p)[k] == OwnLeaves(p)[k]
    {
      DetailsOfDistinct(m, k + 1);
    }
    assert DetailLeaves(schema, p) == OwnLeaves(p);
    if p.select.AllColumns? {
      forall k | 0 <= k < |p.joins| + 1
        ensures TableOrder(p)[k] == Instances(p)[k].name && p.details[TableOrder(p)[k]] == Instances(p)[k].alias
      {
        TableOrderEntries(schema, p, k);
        InstancesEntries(schema, p, k);
        DetailsOfDistinct(m, k);
      }
      StarDistinct(schema, p, |p.joins| + 1);
    }
  }

  /** Without a repeated table the `*` loop expands every occurrence under its own alias. */
  lemma {:induction false} StarDistinct(schema: Schema, p: Parsed, n: nat)
    requires Consistent(schema, p) && DistinctTables(p.aliases) && Translatable(schema, p) && TablesInCatalogue(schema, p)
    requires n <= |p.joins| + 1
    requires forall k :: 0 <= k < |p.joins| + 1 ==>
      TableOrder(p)[k] == Instances(p)[k].name && p.details[TableOrder(p)[k]] == Instances(p)[k].alias
    ensures StarColumns(schema, p.details, TableOrder(p), n) == ExpandAll(schema, Instances(p), n)
  {
    if n > 0 {
      StarDistinct(schema, p, n - 1);
      var order := TableOrder(p);
      TableOrderEntries(schema, p, n - 1);
      if order[n - 1] in order[..n - 1] {
        var j :| 0 <= j < n - 1 && order[j] == order[n - 1];
        TableOrderEntries(schema, p, j);
        assert false;
      }
    }
  }

  /** When a JOIN repeats the FROM table, the source labels the FROM leaf with another alias than
      the FROM table's own: the later registration has replaced it in the details. */
  lemma SelfJoinRelabelsFrom(schema: Schema, p: Parsed, k: nat)
    requires Consistent(schema, p) && k < |p.joins| && p.joins[k].table == p.from.name
    ensures p.from.name in p.details && p.details[p.from.name] != p.from.alias
  {
    DetailsOfLater(p.aliases, 0, k + 1);
  }

  /** A table registered again later no longer maps to its first alias. */
  lemma {:induction false} DetailsOfLater(m: AliasMap, i: nat, j: nat)
    requires i < j < |m| && m[i].table == m[j].table && UniqueAliases(m)
    ensures m[i].table in DetailsOf(m) && DetailsOf(m)[m[i].table] != m[i].alias
  {
    DetailsOfHas(m, i);
    var last := |m| - 1;
    if j < last && m[last].table != m[i].table {
      var init := m[..last];
      assert UniqueAliases(init);
      DetailsOfLater(init, i, j);
    }
  }

  /** `SELECT c1.nome FROM cliente c1 INNER JOIN cliente c2 ON c1.idcliente = c2.idcliente` after
      validation. */
  function SelfJoinQuery(): Parsed
  {
    var on := "c1.idcliente = c2.idcliente";
    Parsed(["c1.nome"], TableRef("cliente", "c1"), [JoinInfo("cliente", "c2", on, [on])], None,
           [AliasEntry("c1", "cliente"), AliasEntry("c2", "cliente")], map["cliente" := "c2"],
           Columns([ColumnRef("cliente", "nome", "c1")]), [])
  }

  /** The details the self-join leaves behind name only the later alias `c2`. */
  lemma SelfJoinDetails()
    ensures var p := SelfJoinQuery();
      p.details == DetailsOf(p.aliases) && UniqueAliases(p.aliases) && p.aliases[0] == AliasEntry(p.from.alias, p.from.name)
  {
    var p := SelfJoinQuery();
    assert p.aliases[..1] == [AliasEntry("c1", "cliente")];
    assert p.aliases[..1][..0] == [];
  }

  /** The σ and the projection of the self-join, which both translations share. */
  lemma SelfJoinShared()
    ensures JoinWith(Predicates(SelfJoinQuery()), " ∧ ") == "c1.idcliente = c2.idcliente"
    ensures SelfJoinQuery().select.Columns? && Rendered(SelfJoinQuery().select.cols) == ["c1.nome"]
  {
    var p := SelfJoinQuery();
    var cond := "c1.idcliente = c2.idcliente";
    assert JoinPredicates(p.joins, 1) == JoinPredicates(p.joins, 0) + [cond];
    assert Predicates(p) == [cond];
    assert Rendered(p.select.cols)[0] == Render(ColumnRef("cliente", "nome", "c1")) == "c1.nome";
  }

  /** The leaves the source builds for the self-join: both from the one dictionary entry. */
  lemma SelfJoinLeaves(schema: Schema)
    requires "cliente" in schema
    ensures Translatable(schema, SelfJoinQuery())
    ensures DetailLeaves(schema, SelfJoinQuery()) == ["cliente[c2]"]
    ensures Leaf(SelfJoinQuery().from.name, SelfJoinQuery().details[SelfJoinQuery().from.name]) == "cliente[c2]"
  {
    var p := SelfJoinQuery();
    assert TableOrder(p) == ["cliente", "cliente"];
    assert DetailLeaves(schema, p)[0] == Leaf("cliente", "c2") == "cliente[c2]";
  }

  /** The source binds `c2` twice and `c1` nowhere, although the σ uses `c1`. */
  lemma SelfJoinAsWritten(schema: Schema)
    requires "cliente" in schema
    ensures Translatable(schema, SelfJoinQuery())
    ensures Translate(schema, SelfJoinQuery())
         == Projected(["c1.nome"], Selection("c1.idcliente = c2.idcliente", "(" + "cliente[c2]" + " ⨝ " + "cliente[c2]" + ")"))
  {
    var p := SelfJoinQuery();
    SelfJoinShared();
    SelfJoinLeaves(schema);
    assert Projection(schema, p) == ["c1.nome"];
    var c2 := "cliente[c2]";
    assert Chain(c2, [c2], 1) == "(" + c2 + " ⨝ " + c2 + ")";
  }

  /** The corrected translation binds `c1` and `c2`, one per occurrence of the table. */
  lemma SelfJoinCorrected(schema: Schema)
    requires "cliente" in schema
    ensures TablesInCatalogue(schema, SelfJoinQuery())
    ensures TranslateOwn(schema, SelfJoinQuery())
         == Projected(["c1.nome"], Selection("c1.idcliente = c2.idcliente", "(" + "cliente[c1]" + " ⨝ " + "cliente[c2]" + ")"))
  {
    var p := SelfJoinQuery();
    SelfJoinShared();
    SelfJoinOwnLeaves(schema);
    var c1 := "cliente[c1]";
    var c2 := "cliente[c2]";
    assert Chain(c1, [c2], 1) == "(" + c1 + " ⨝ " + c2 + ")";
  }

  /** The leaves the corrected translation builds for the self-join: one per occurrence. */
  lemma SelfJoinOwnLeaves(schema: Schema)
    requires "cliente" in schema
    ensures TablesInCatalogue(schema, SelfJoinQuery())
    ensures OwnLeaves(SelfJoinQuery()) == ["cliente[c2]"]
    ensures Leaf(SelfJoinQuery().from.name, SelfJoinQuery().from.alias) == "cliente[c1]"
  {
    var p := SelfJoinQuery();
    assert Instances(p)[1] == TableRef("cliente", "c2");
    assert Instances(p)[0].name == "cliente";
    assert OwnLeaves(p)[0] == Leaf("cliente", "c2") == "cliente[c2]";
  }
}

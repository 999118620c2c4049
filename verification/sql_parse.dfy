/**
 * `parse_validate_sql` (parser.py:186-256) after its regular expressions have matched: the FROM
 * and JOIN tables are registered with their aliases, the SELECT items are resolved, and the WHERE
 * and ON conditions are rewritten.
 *
 * The regular expressions themselves are not modelled. What they capture arrives as a
 * `StatementMatch`: the SELECT text of `SELECT\s+(.*?)\s+(FROM\s+.*)` and, when the FROM/JOIN/WHERE
 * pattern matches the rest, its groups and the matches of the JOIN iterator.
 */
module SqlParse {
  import opened Text
  import opened SqlSchema
  import opened SqlValidator

  /** One match of the JOIN iterator: the table, the optional alias and the ON text as captured. */
  datatype JoinMatch = JoinMatch(table: string, alias: Option<string>, condition: string)

  /**
   * The groups of the FROM/JOIN/WHERE pattern. `rest` is the text of the JOIN block after the last
   * match of the JOIN iterator (all of the block when nothing matched, empty when there is no block).
   */
  datatype ClauseMatch = ClauseMatch(fromTable: string, fromAlias: Option<string>, joins: seq<JoinMatch>,
                                     rest: string, where: Option<string>)

  /** The SELECT text, and the clauses when the second pattern matches what follows it. */
  datatype StatementMatch = StatementMatch(selectPart: string, clauses: Option<ClauseMatch>)

  /** A registered JOIN: normalised table, alias, and its stripped ON text. */
  datatype JoinRef = JoinRef(table: string, alias: string, condition: string)

  /** A JOIN after validation, with its rewritten ON predicates. */
  datatype JoinInfo = JoinInfo(table: string, alias: string, condition: string, rewritten: seq<string>)

  /** `validated_select_cols`: the single `*`, or the resolved columns in SELECT order. */
  datatype SelectList = AllColumns | Columns(cols: seq<ColumnRef>)

  /** `parsed_data` as the translator reads it. */
  datatype Parsed = Parsed(items: seq<string>, from: TableRef, joins: seq<JoinInfo>, where: Option<string>,
                           aliases: AliasMap, details: map<string, string>, select: SelectList,
                           whereRewritten: seq<string>)

  /** The tables registered so far: the used aliases, the table-to-alias details, the alias
      dictionary and the JOINs, in order. */
  datatype Scope = Scope(used: set<string>, details: map<string, string>, aliases: AliasMap, joins: seq<JoinRef>)

  /** The aliases of a dictionary, as a set. */
  function KeySet(m: AliasMap): set<string>
  {
    if m == [] then {} else KeySet(m[..|m| - 1]) + {m[|m| - 1].alias}
  }

  lemma {:induction false} KeySetHas(m: AliasMap, i: nat)
    requires i < |m|
    ensures m[i].alias in KeySet(m)
  {
    if i < |m| - 1 {
      KeySetHas(m[..|m| - 1], i);
    }
  }

  /** `table_alias_details` as registration leaves it: each table maps to the alias it was last
      registered under. */
  function DetailsOf(m: AliasMap): map<string, string>
  {
    if m == [] then map[] else DetailsOf(m[..|m| - 1])[m[|m| - 1].table := m[|m| - 1].alias]
  }

  /** Every registered table has an entry in the details. */
  lemma {:induction false} DetailsOfHas(m: AliasMap, i: nat)
    requires i < |m|
    ensures m[i].table in DetailsOf(m)
  {
    if i < |m| - 1 {
      DetailsOfHas(m[..|m| - 1], i);
    }
  }

  /** When no table is registered twice, the details give every table the alias of its own entry. */
  lemma {:induction false} DetailsOfDistinct(m: AliasMap, i: nat)
    requires i < |m| && forall a, b :: 0 <= a < b < |m| ==> m[a].table != m[b].table
    ensures m[i].table in DetailsOf(m) && DetailsOf(m)[m[i].table] == m[i].alias
  {
    DetailsOfHas(m, i);
    if i < |m| - 1 {
      DetailsOfDistinct(m[..|m| - 1], i);
    }
  }

  /** What registration keeps true: aliases are unique and name known tables, the used set is
      exactly the set of dictionary keys, and the details record each table's latest alias. */
  predicate ScopeOk(schema: Schema, sc: Scope)
  {
    UniqueAliases(sc.aliases) && TablesKnown(schema, sc.aliases) && sc.used == KeySet(sc.aliases)
    && sc.details == DetailsOf(sc.aliases)
  }

  /** Registering one table into the scope, as a JOIN when `join` holds its ON text. */
  function AddTable(schema: Schema, sc: Scope, table: string, alias: Option<string>, cond: Option<string>)
    : Result<Scope, SqlError>
  {
    match RegisterTable(schema, table, alias, sc.used, sc.details)
    case Err(e) => Err(e)
    case Ok(reg) =>
      Ok(Scope(reg.used, reg.details, sc.aliases + [AliasEntry(reg.table.alias, reg.table.name)],
               if cond.Some? then sc.joins + [JoinRef(reg.table.name, reg.table.alias, cond.value)] else sc.joins))
  }

  /** Registration keeps the scope's invariant, and it only ever adds: the new dictionary extends the
      old one by the new alias. */
  lemma AddTableKeepsScope(schema: Schema, sc: Scope, table: string, alias: Option<string>, cond: Option<string>)
    requires ScopeOk(schema, sc)
    ensures var r := AddTable(schema, sc, table, alias, cond);
      r.Ok? ==> ScopeOk(schema, r.value) && |r.value.aliases| == |sc.aliases| + 1
                && r.value.aliases[..|sc.aliases|] == sc.aliases
                && r.value.aliases[|sc.aliases|] == AliasEntry(AliasToUse(table, alias), NormalizeName(table))
  {
    var r := AddTable(schema, sc, table, alias, cond);
    if r.Ok? {
      var a := AliasToUse(table, alias);
      var m := sc.aliases + [AliasEntry(a, NormalizeName(table))];
      assert r.value.aliases == m;
      assert m[..|sc.aliases|] == sc.aliases;
      forall i | 0 <= i < |sc.aliases|
        ensures sc.aliases[i].alias != a
      {
        KeySetHas(sc.aliases, i);
      }
    }
  }

  /** One step of the JOIN loop: an empty ON text is refused, then the table is registered. */
  function RegisterJoin(schema: Schema, sofar: Result<Scope, SqlError>, j: JoinMatch): Result<Scope, SqlError>
  {
    match sofar
    case Err(e) => Err(e)
    case Ok(sc) =>
      var cond := Strip(j.condition);
      if cond == [] then Err(EmptyOnCondition(j.table)) else AddTable(schema, sc, j.table, j.alias, Some(cond))
  }

  /** The JOIN loop of `parse_validate_sql`: the matches registered in order, the first failure
      aborting. */
  function RegisterJoins(schema: Schema, start: Scope, js: seq<JoinMatch>): Result<Scope, SqlError>
  {
    if js == [] then Ok(start) else RegisterJoin(schema, RegisterJoins(schema, start, js[..|js| - 1]), js[|js| - 1])
  }

  /** The JOIN loop keeps the scope's invariant and only appends to the alias dictionary. */
  lemma {:induction false} RegisterJoinsKeepsScope(schema: Schema, start: Scope, js: seq<JoinMatch>)
    requires ScopeOk(schema, start)
    ensures var r := RegisterJoins(schema, start, js);
      r.Ok? ==> ScopeOk(schema, r.value) && |r.value.aliases| == |start.aliases| + |js|
                && r.value.aliases[..|start.aliases|] == start.aliases && |r.value.joins| == |start.joins| + |js|
  {
    if js != [] {
      var init := js[..|js| - 1];
      RegisterJoinsKeepsScope(schema, start, init);
      var prev := RegisterJoins(schema, start, init);
      if prev.Ok? {
        var j := js[|js| - 1];
        AddTableKeepsScope(schema, prev.value, j.table, j.alias, Some(Strip(j.condition)));
        if RegisterJoins(schema, start, js).Ok? {
          var m := RegisterJoins(schema, start, js).value.aliases;
          assert m[..|start.aliases|] == m[..|prev.value.aliases|][..|start.aliases|];
        }
      }
    }
  }

  /** The JOIN loop as the source runs it. */
  method RegisterJoinLoop(schema: Schema, start: Scope, js: seq<JoinMatch>) returns (r: Result<Scope, SqlError>)
    ensures r == RegisterJoins(schema, start, js)
  {
    r := Ok(start);
    for i := 0 to |js|
      invariant r == RegisterJoins(schema, start, js[..i])
    {
      assert js[..i + 1][..i] == js[..i];
      r := RegisterJoin(schema, r, js[i]);
      if r.Err? {
        RegisterJoinsErrStays(schema, start, js, i + 1);
        return;
      }
    }
    assert js[..|js|] == js;
  }

  lemma {:induction false} RegisterJoinsErrStays(schema: Schema, start: Scope, js: seq<JoinMatch>, k: nat)
    requires k <= |js| && RegisterJoins(schema, start, js[..k]).Err?
    ensures RegisterJoins(schema, start, js) == RegisterJoins(schema, start, js[..k])
    decreases |js| - k
  {
    if k == |js| {
      assert js[..k] == js;
    } else {
      assert js[..k + 1][..k] == js[..k];
      RegisterJoinsErrStays(schema, start, js, k + 1);
    }
  }

  /** JOINs and dictionary entries line up: the FROM table first, then one entry per JOIN. */
  predicate JoinsAligned(sc: Scope)
  {
    |sc.aliases| == |sc.joins| + 1
    && forall k :: 0 <= k < |sc.joins| ==> sc.aliases[k + 1] == AliasEntry(sc.joins[k].alias, sc.joins[k].table)
  }

  lemma {:induction false} RegisterJoinsAligned(schema: Schema, start: Scope, js: seq<JoinMatch>)
    requires JoinsAligned(start)
    ensures RegisterJoins(schema, start, js).Ok? ==> JoinsAligned(RegisterJoins(schema, start, js).value)
    ensures RegisterJoins(schema, start, js).Ok? ==> RegisterJoins(schema, start, js).value.aliases[0] == start.aliases[0]
  {
    if js != [] {
      var init := js[..|js| - 1];
      RegisterJoinsAligned(schema, start, init);
      var prev := RegisterJoins(schema, start, init);
      var j := js[|js| - 1];
      if prev.Ok? && Strip(j.condition) != [] {
        AddTableAligned(schema, prev.value, j.table, j.alias, Strip(j.condition));
      }
    }
  }

  /** Registering a JOIN appends its dictionary entry and its JOIN record side by side. */
  lemma AddTableAligned(schema: Schema, sc: Scope, table: string, alias: Option<string>, cond: string)
    requires JoinsAligned(sc)
    ensures var r := AddTable(schema, sc, table, alias, Some(cond));
      r.Ok? ==> JoinsAligned(r.value) && r.value.aliases[0] == sc.aliases[0]
  {
    var r := AddTable(schema, sc, table, alias, Some(cond));
    if r.Ok? {
      var n := r.value;
      assert n.aliases == sc.aliases + [n.aliases[|sc.aliases|]];
      assert n.joins == sc.joins + [n.joins[|sc.joins|]];
      forall k | 0 <= k < |n.joins|
        ensures n.aliases[k + 1] == AliasEntry(n.joins[k].alias, n.joins[k].table)
      {
        if k < |sc.joins| {
          assert n.aliases[k + 1] == sc.aliases[k + 1] && n.joins[k] == sc.joins[k];
        }
      }
    }
  }

  /** `parsed_data['from_table']`: the FROM table normalised, with the alias it is registered under. */
  function FromTable(c: ClauseMatch): TableRef
  {
    TableRef(NormalizeName(c.fromTable), AliasToUse(c.fromTable, c.fromAlias))
  }

  /** The FROM table, then the JOIN loop, then the check that no JOIN text is left over. */
  function RegisterClauses(schema: Schema, c: ClauseMatch): Result<Scope, SqlError>
  {
    match AddTable(schema, Scope({}, map[], [], []), c.fromTable, c.fromAlias, None)
    case Err(e) => Err(e)
    case Ok(start) =>
      match RegisterJoins(schema, start, c.joins)
      case Err(e) => Err(e)
      case Ok(sc) => if Strip(c.rest) != [] then Err(TrailingJoinText(Strip(c.rest))) else Ok(sc)
  }

  /** After registration the FROM table heads the alias dictionary, one entry per JOIN follows, and
      every alias is unique and names a catalogue table. */
  lemma RegisterClausesScope(schema: Schema, c: ClauseMatch)
    ensures var r := RegisterClauses(schema, c);
      r.Ok? ==> ScopeOk(schema, r.value) && JoinsAligned(r.value) && |r.value.joins| == |c.joins|
                && r.value.aliases[0] == AliasEntry(FromTable(c).alias, FromTable(c).name)
  {
    var start := AddTable(schema, Scope({}, map[], [], []), c.fromTable, c.fromAlias, None);
    FromScope(schema, c);
    if start.Ok? {
      RegisterJoinsKeepsScope(schema, start.value, c.joins);
      RegisterJoinsAligned(schema, start.value, c.joins);
    }
  }

  /** Registering the FROM table starts a scope holding that table alone and no JOIN. */
  lemma FromScope(schema: Schema, c: ClauseMatch)
    ensures var r := AddTable(schema, Scope({}, map[], [], []), c.fromTable, c.fromAlias, None);
      r.Ok? ==> ScopeOk(schema, r.value) && JoinsAligned(r.value) && r.value.joins == []
                && r.value.aliases == [AliasEntry(FromTable(c).alias, FromTable(c).name)]
  {
    var empty := Scope({}, map[], [], []);
    assert ScopeOk(schema, empty);
    AddTableKeepsScope(schema, empty, c.fromTable, c.fromAlias, None);
  }

  /** A column resolver: `_validate_column_name` with its catalogue and aliases. */
  type ColumnResolver = string -> Result<ColumnRef, SqlError>

  function ResolverFor(schema: Schema, m: AliasMap): ColumnResolver
  {
    n => ResolveColumn(schema, n, m)
  }

  /** The SELECT loop: each item resolved in order; the first failure aborts, naming the item and
      the involved aliases. */
  function ResolveItems(resolve: ColumnResolver, items: seq<string>, involved: seq<string>)
    : (r: Result<seq<ColumnRef>, SqlError>)
  {
    if items == [] then Ok([])
    else
      match ResolveItems(resolve, items[..|items| - 1], involved)
      case Err(e) => Err(e)
      case Ok(done) =>
        match resolve(items[|items| - 1])
        case Err(e) => Err(InSelectItem(items[|items| - 1], e, involved))
        case Ok(col) => Ok(done + [col])
  }

  /** The SELECT loop succeeds exactly when every item resolves, and then lists their columns in
      order. */
  lemma {:induction false} ResolveItemsSpec(resolve: ColumnResolver, items: seq<string>, involved: seq<string>)
    ensures ResolveItems(resolve, items, involved).Ok? <==> forall k :: 0 <= k < |items| ==> resolve(items[k]).Ok?
    ensures ResolveItems(resolve, items, involved).Ok? ==>
      |ResolveItems(resolve, items, involved).value| == |items|
      && forall k :: 0 <= k < |items| ==> ResolveItems(resolve, items, involved).value[k] == resolve(items[k]).value
  {
    if items != [] {
      var init := items[..|items| - 1];
      ResolveItemsSpec(resolve, init, involved);
      assert forall k :: 0 <= k < |init| ==> init[k] == items[k];
    }
  }

  method ResolveItemLoop(resolve: ColumnResolver, items: seq<string>, involved: seq<string>)
    returns (r: Result<seq<ColumnRef>, SqlError>)
    ensures r == ResolveItems(resolve, items, involved)
  {
    var cols: seq<ColumnRef> := [];
    for i := 0 to |items|
      invariant ResolveItems(resolve, items[..i], involved) == Ok(cols)
    {
      assert items[..i + 1][..i] == items[..i];
      var c := resolve(items[i]);
      if c.Err? {
        r := Err(InSelectItem(items[i], c.error, involved));
        ResolveItemsErrStays(resolve, items, involved, i + 1);
        return;
      }
      cols := cols + [c.value];
    }
    assert items[..|items|] == items;
    return Ok(cols);
  }

  lemma {:induction false} ResolveItemsErrStays(resolve: ColumnResolver, items: seq<string>, involved: seq<string>, k: nat)
    requires k <= |items| && ResolveItems(resolve, items[..k], involved).Err?
    ensures ResolveItems(resolve, items, involved) == ResolveItems(resolve, items[..k], involved)
    decreases |items| - k
  {
    if k == |items| {
      assert items[..k] == items;
    } else {
      assert items[..k + 1][..k] == items[..k];
      ResolveItemsErrStays(resolve, items, involved, k + 1);
    }
  }

  /** A rewriter of whole conditions: `_process_conditions` with its part rewriter. */
  type ConditionRewriter = string -> Result<seq<string>, SqlError>

  function ConditionsFor(rw: PartRewriter): ConditionRewriter
  {
    c => RewriteConditions(rw, c)
  }

  /** The ON loop: each JOIN's condition rewritten against all aliases. A failure, or a condition
      that leaves no predicate, surfaces as the failed lookup at parser.py:253. */
  function JoinConditions(conds: ConditionRewriter, js: seq<JoinRef>): Result<seq<JoinInfo>, SqlError>
  {
    if js == [] then Ok([])
    else
      match JoinConditions(conds, js[..|js| - 1])
      case Err(e) => Err(e)
      case Ok(done) =>
        var j := js[|js| - 1];
        match conds(j.condition)
        case Err(_) => Err(OnConditionLookupFailed(j.table))
        case Ok(rs) => if rs == [] then Err(OnConditionLookupFailed(j.table)) else Ok(done + [JoinInfo(j.table, j.alias, j.condition, rs)])
  }

  /** Every JOIN that passes keeps its table, alias and ON text and has at least one rewritten
      predicate: the ones its condition rewrites to. */
  lemma {:induction false} JoinConditionsSpec(conds: ConditionRewriter, js: seq<JoinRef>)
    ensures var r := JoinConditions(conds, js);
      r.Ok? ==>
        |r.value| == |js|
        && forall k :: 0 <= k < |js| ==>
             r.value[k].table == js[k].table && r.value[k].alias == js[k].alias && r.value[k].condition == js[k].condition
             && r.value[k].rewritten != [] && conds(js[k].condition) == Ok(r.value[k].rewritten)
  {
    if js != [] {
      var init := js[..|js| - 1];
      JoinConditionsSpec(conds, init);
      assert forall k :: 0 <= k < |init| ==> init[k] == js[k];
    }
  }

  method JoinConditionLoop(rw: PartRewriter, js: seq<JoinRef>) returns (r: Result<seq<JoinInfo>, SqlError>)
    ensures r == JoinConditions(ConditionsFor(rw), js)
  {
    ghost var conds := ConditionsFor(rw);
    var infos: seq<JoinInfo> := [];
    for i := 0 to |js|
      invariant JoinConditions(conds, js[..i]) == Ok(infos)
    {
      assert js[..i + 1][..i] == js[..i];
      var rs := ProcessConditions(rw, js[i].condition);
      assert rs == conds(js[i].condition);
      if rs.Err? || rs.value == [] {
        r := Err(OnConditionLookupFailed(js[i].table));
        assert JoinConditions(conds, js[..i + 1]) == r;
        JoinConditionsErrStays(conds, js, i + 1);
        return;
      }
      infos := infos + [JoinInfo(js[i].table, js[i].alias, js[i].condition, rs.value)];
      assert JoinConditions(conds, js[..i + 1]) == Ok(infos);
    }
    assert js[..|js|] == js;
    return Ok(infos);
  }

  lemma {:induction false} JoinConditionsErrStays(conds: ConditionRewriter, js: seq<JoinRef>, k: nat)
    requires k <= |js| && JoinConditions(conds, js[..k]).Err?
    ensures JoinConditions(conds, js) == JoinConditions(conds, js[..k])
    decreases |js| - k
  {
    if k == |js| {
      assert js[..k] == js;
    } else {
      assert js[..k + 1][..k] == js[..k];
      JoinConditionsErrStays(conds, js, k + 1);
    }
  }

  /** The SELECT list: the lone `*`, or every item resolved. */
  function SelectOf(resolve: ColumnResolver, items: seq<string>, involved: seq<string>): Result<SelectList, SqlError>
  {
    if items == ["*"] then Ok(AllColumns)
    else
      match ResolveItems(resolve, items, involved)
      case Err(e) => Err(e)
      case Ok(cols) => Ok(Columns(cols))
  }

  /** The WHERE text kept: the group stripped, when it is not empty. */
  function WhereText(where: Option<string>): Option<string>
  {
    if where.Some? && where.value != [] then Some(Strip(where.value)) else None
  }

  /** After registration: the SELECT items, then WHERE, then every ON condition. */
  function CheckClauses(schema: Schema, items: seq<string>, c: ClauseMatch, sc: Scope): Result<Parsed, SqlError>
  {
    var m := sc.aliases;
    var where := WhereText(c.where);
    match SelectOf(ResolverFor(schema, m), items, Keys(m))
    case Err(e) => Err(e)
    case Ok(sel) =>
      match (if where.Some? && where.value != [] then RewriteConditions(RewriterFor(schema, m), where.value) else Ok([]))
      case Err(e) => Err(InWhere(e))
      case Ok(ws) =>
        match JoinConditions(ConditionsFor(RewriterFor(schema, m)), sc.joins)
        case Err(e) => Err(e)
        case Ok(js) =>
          Ok(Parsed(items, FromTable(c), js, where, m, sc.details, sel, ws))
  }

  /**
   * `parse_validate_sql`: the statement-level checks in the source's order (empty query, no
   * SELECT … FROM, empty SELECT clause, an empty item, clauses that do not parse), then
   * registration and the checks of the clauses.
   */
  function ParseValidate(schema: Schema, query: string, matched: Option<StatementMatch>): Result<Parsed, SqlError>
  {
    if Strip(query) == [] then Err(EmptyQuery)
    else if matched.None? then Err(NotSelectFrom)
    else
      var selectPart := Strip(matched.value.selectPart);
      var items := StripAll(SplitOn(selectPart, ','));
      if selectPart == [] then Err(EmptySelectClause)
      else if [] in items then Err(EmptySelectItem)
      else if matched.value.clauses.None? then Err(UnparsableClauses)
      else
        ValidateClauses(schema, items, matched.value.clauses.value)
  }

  /** Registration, then the checks of the clauses. */
  function ValidateClauses(schema: Schema, items: seq<string>, c: ClauseMatch): Result<Parsed, SqlError>
  {
    match RegisterClauses(schema, c)
    case Err(e) => Err(e)
    case Ok(sc) => CheckClauses(schema, items, c, sc)
  }

  /** `parse_validate_sql` as the source runs it, its loops in the methods it calls. */
  method ParseValidateSql(schema: Schema, query: string, matched: Option<StatementMatch>)
    returns (r: Result<Parsed, SqlError>)
    ensures r == ParseValidate(schema, query, matched)
  {
    if Strip(query) == [] {
      return Err(EmptyQuery);
    }
    if matched.None? {
      return Err(NotSelectFrom);
    }
    var selectPart := Strip(matched.value.selectPart);
    if selectPart == [] {
      return Err(EmptySelectClause);
    }
    var items := StripAll(SplitOn(selectPart, ','));
    if [] in items {
      return Err(EmptySelectItem);
    }
    if matched.value.clauses.None? {
      return Err(UnparsableClauses);
    }
    var c := matched.value.clauses.value;
    var sc := RegisterAll(schema, c);
    if sc.Err? {
      return Err(sc.error);
    }
    r := CheckAll(schema, items, c, sc.value);
  }

  /** Registration of the FROM table and the JOIN loop, with the used set and the details updated
      table by table. */
  method RegisterAll(schema: Schema, c: ClauseMatch) returns (r: Result<Scope, SqlError>)
    ensures r == RegisterClauses(schema, c)
  {
    var start := AddTable(schema, Scope({}, map[], [], []), c.fromTable, c.fromAlias, None);
    if start.Err? {
      return Err(start.error);
    }
    r := RegisterJoinLoop(schema, start.value, c.joins);
    if r.Ok? && Strip(c.rest) != [] {
      r := Err(TrailingJoinText(Strip(c.rest)));
    }
  }

  /** The SELECT loop, the WHERE conditions and the ON loop. */
  method CheckAll(schema: Schema, items: seq<string>, c: ClauseMatch, sc: Scope) returns (r: Result<Parsed, SqlError>)
    ensures r == CheckClauses(schema, items, c, sc)
  {
    var m := sc.aliases;
    var where := WhereText(c.where);
    var sel: SelectList := AllColumns;
    if items != ["*"] {
      var cols := ResolveItemLoop(ResolverFor(schema, m), items, Keys(m));
      if cols.Err? {
        return Err(cols.error);
      }
      sel := Columns(cols.value);
    }
    var ws: seq<string> := [];
    if where.Some? && where.value != [] {
      var w := ProcessConditions(RewriterFor(schema, m), where.value);
      if w.Err? {
        return Err(InWhere(w.error));
      }
      ws := w.value;
    }
    var js := JoinConditionLoop(RewriterFor(schema, m), sc.joins);
    if js.Err? {
      return Err(js.error);
    }
    return Ok(Parsed(items, FromTable(c), js.value, where, m, sc.details, sel, ws));
  }

  /**
   * What the translator relies on: the FROM table heads a dictionary of unique aliases naming
   * catalogue tables, one entry per JOIN follows in order, every JOIN has at least one rewritten
   * predicate, and every selected column is reachable through the dictionary.
   */
  predicate Consistent(schema: Schema, p: Parsed)
  {
    UniqueAliases(p.aliases) && TablesKnown(schema, p.aliases) && p.details == DetailsOf(p.aliases)
    && |p.aliases| == |p.joins| + 1 && p.aliases[0] == AliasEntry(p.from.alias, p.from.name)
    && (forall k :: 0 <= k < |p.joins| ==>
          p.aliases[k + 1] == AliasEntry(p.joins[k].alias, p.joins[k].table) && p.joins[k].rewritten != [])
    && (p.select.Columns? ==>
          |p.select.cols| == |p.items|
          && forall k :: 0 <= k < |p.select.cols| ==> Involved(schema, p.aliases, p.select.cols[k]))
  }

  /**
   * What a validated query guarantees: the FROM table heads a dictionary of unique aliases naming
   * catalogue tables, one entry per JOIN follows in order, every JOIN has at least one rewritten
   * predicate, and every selected column is reachable through the dictionary.
   */
  lemma ParseValidateSound(schema: Schema, query: string, matched: Option<StatementMatch>)
    ensures var r := ParseValidate(schema, query, matched);
      r.Ok? ==> Consistent(schema, r.value)
  {
    if Strip(query) != [] && matched.Some? && matched.value.clauses.Some? {
      var selectPart := Strip(matched.value.selectPart);
      var items := StripAll(SplitOn(selectPart, ','));
      if selectPart != [] && [] !in items {
        var c := matched.value.clauses.value;
        assert ParseValidate(schema, query, matched) == ValidateClauses(schema, items, c);
        ValidateClausesSound(schema, items, c);
      }
    }
  }

  lemma ValidateClausesSound(schema: Schema, items: seq<string>, c: ClauseMatch)
    ensures var r := ValidateClauses(schema, items, c);
      r.Ok? ==> Consistent(schema, r.value)
  {
    var reg := RegisterClauses(schema, c);
    RegisterClausesScope(schema, c);
    if reg.Ok? {
      CheckClausesSound(schema, items, c, reg.value);
    }
  }

  /** The clause checks keep the registered dictionary and JOINs as they are, give every JOIN at
      least one predicate, and resolve every selected column through the dictionary. */
  lemma CheckClausesSound(schema: Schema, items: seq<string>, c: ClauseMatch, sc: Scope)
    ensures var r := CheckClauses(schema, items, c, sc);
      r.Ok? ==>
        var p := r.value;
        p.aliases == sc.aliases && p.details == sc.details && p.items == items && p.from == FromTable(c)
        && |p.joins| == |sc.joins|
        && (forall k :: 0 <= k < |p.joins| ==>
              p.joins[k].table == sc.joins[k].table && p.joins[k].alias == sc.joins[k].alias && p.joins[k].rewritten != [])
        && (p.select.Columns? ==>
              |p.select.cols| == |items| && forall k :: 0 <= k < |p.select.cols| ==> Involved(schema, sc.aliases, p.select.cols[k]))
  {
    var m := sc.aliases;
    JoinConditionsSpec(ConditionsFor(RewriterFor(schema, m)), sc.joins);
    SelectOfSound(schema, m, items, Keys(m));
  }

  /** A resolved SELECT list has one column per item, each reachable through the dictionary. */
  lemma SelectOfSound(schema: Schema, m: AliasMap, items: seq<string>, involved: seq<string>)
    ensures var r := SelectOf(ResolverFor(schema, m), items, involved);
      r.Ok? && r.value.Columns? ==>
        |r.value.cols| == |items| && forall k :: 0 <= k < |items| ==> Involved(schema, m, r.value.cols[k])
  {
    if items != ["*"] {
      ResolveItemsSpec(ResolverFor(schema, m), items, involved);
      var r := ResolveItems(ResolverFor(schema, m), items, involved);
      if r.Ok? {
        forall k | 0 <= k < |items|
          ensures Involved(schema, m, r.value[k])
        {
          ResolveColumnSound(schema, items[k], m);
        }
      }
    }
  }
}

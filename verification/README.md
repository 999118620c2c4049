# A verified model of a small query compiler

The system turns a restricted SQL `SELECT` statement into relational-algebra text. It parses that
text into operation trees, rewrites the trees and prints them again. This project models its
algorithmic core in Dafny and proves what each part promises. The core has four parts, in two
lineages that share no code.

- **SQL validator and translator** (`parser.py`).
  - The statement's regular expressions are taken as already matched. `SqlParse.ParseValidateSql`
    receives the captured fragments as a record: the select text, the `FROM` table and optional
    alias, one record per `INNER JOIN`, the trailing text and the `WHERE` text.
  - The condition-part patterns (`parser.py:93-125`) are modelled as scanners.
    `SqlValidator.RecognizeComparison` reads a part as left side, operator, right side and the
    kind of alternative that matched, trying the alternatives in the source's order.
  - Everything after the match is modelled exactly:
    - alias registration (`SqlValidator.RegisterTable`);
    - column resolution, including ambiguity (`SqlValidator.ValidateColumnName`);
    - rewriting of a condition part (`SqlValidator.RewriteConditionPart`);
    - splitting at `AND` (`SqlValidator.ProcessConditions`);
    - the translation into algebra text (`SqlTranslator.Convert`).
  - `float(x)` is the grammar of Python float literals (`SqlValidator.IsPyFloat`), over ASCII digits.
- **Binary tree builder and printer** (`novo_plantando_arvores/parser.py`, `novo_plantando_arvores/arvore.py`).
  - `NoArvore` and `Arvore` are classes whose fields the builder assigns in place. Each object
    carries a ghost footprint `Repr` and a ghost value `Model` of type `BTree`.
  - Every method is proved equal to a value-level function: `TreeOf` for building, `Render` for
    printing.
  - Two properties are proved about those functions:
    - every tree the builder makes can be printed;
    - printing a tree in canonical form and parsing the text again gives back the same tree.
- **Text rewrites** (`novo_plantando_arvores/algebra_utils_clause.py`):
  - whitespace normalisation;
  - balanced groups;
  - top-level `∧` splitting;
  - unnesting of composite selections;
  - join removal;
  - selection pushdown.

  The regular expressions used there (`𝛔\[(.*?)\]\(`, `([A-Za-z0-9_]+)\.[A-Za-z0-9_]+`,
  `([A-Za-z0-9_]+)\[([A-Za-z0-9_]+)\]`, `\((.*)\)$`) are written out as scanning functions.
  `AlgebraClauses.LazyClose` is the first `](` and `AlgebraPushdown.TailGroup` is the greedy
  tail group. `inserir_condicoes` passes the new condition to `re.sub` as a replacement template;
  `AlgebraJoins.Expand` reads that template as `re.sub` does (group references, escapes, and the
  error on a bad escape).
- **N-ary builder and the three optimisers** (`plantando_arvores/`).
  - Trees here are values: `QueryProcessing.Node(op, children)`. Each pass that reassigns
    `filhos[...]` in place is a function returning the rewritten tree.
  - The three optimisers are kept apart, each with its own quirks:
    - `otimizador.py` is `Optimizer`;
    - `teste_otimizador.py` is `DraftOptimizer`;
    - `otimizacao_consultas.py` is `ChainOptimizer`.
  - The two `push_selecoes` differ only in how they read a condition. `otimizador` reads the
    aliases before each dot (`ByAlias`); `teste_otimizador` reads the whole `alias.attribute`
    tokens (`ByAttribute`). Both are therefore `Optimizer.PushSelections` with a `Reading`
    parameter.

Behaviour of the source that the model keeps as written:

- **parser.py:154-158.** The `raise` inside the `try` is caught by the `except` that follows it.
  So a right operand is accepted or refused as a literal only, even when it names a valid column.
  A single `'` counts as a quoted literal.
- **parser.py:138.** The operator check cannot fail: the recogniser yields only allowed
  operators (`SqlValidator.AlternativesAllowed`).
- **algebra_utils_clause.py:218.** `extrair_tabelas_dependentes` reads the literal `100.0` as
  the alias `100`.
- **otimizador.py:68-79.** `push_selecoes` over two operands returns the new selection over one
  operand. The other operand is lost (`Optimizer.SelectionDropsRightOperand`).
- **teste_otimizador.py.** `_atributos` yields dotted tokens, but aliases have no dots.
  - `produto_para_join` therefore never makes a join (`DraftOptimizer.DraftNeverFuses`).
  - `push_selecoes` moves only selections with no attribute token, always to the left operand
    (`DraftOptimizer.DraftBinaryPush`).
- **push_projecoes, both variants.** It never changes the tree (`Optimizer.PushProjections`).
- **otimizacao_consultas.py:57-76.** `otimizar_arvore` on a root `σ` that does not have exactly
  one child calls itself on the same node without end. The model returns the error
  `EndlessRecursion` there.
- **processamento_consultas.py:17-18.** The docstring of `quebrar_condicoes` shows stripped
  parts, but the code keeps the surrounding spaces (`QueryProcessing.CutNested`). The model
  follows the code.

## Model

| member | source | states |
|---|---|---|
| SqlSchema.NormalizeName | parser.py:45-47 | a normalised name has no surrounding whitespace and is no longer than the input |
| SqlSchema.NormalizedLowerCased | parser.py:45-47 | a normalised name holds no upper-case ASCII letter |
| SqlSchema.NormalizeIdempotent | parser.py:45-47 | normalising twice is normalising once |
| SqlSchema.LowerColumns | parser.py:69 | a table's lower-cased column list has one entry per schema column |
| SqlValidator.Keys | parser.py:66 | the alias list of the alias map has one entry per registered alias |
| SqlValidator.LookupSpec | parser.py:65-68 | looking up an alias fails exactly when it was never registered; when it succeeds, the table it gives is the one registered with that alias |
| SqlValidator.LookupEntry | parser.py:68 | with unique aliases, every registered pair is found by its alias |
| SqlValidator.OwnersSpec | parser.py:76-78 | the candidate aliases for an unqualified column are exactly the registered aliases whose table has that column |
| SqlValidator.RegisterTable | parser.py:50-57 | registration succeeds iff the normalised table is in the schema and the alias to use (the given one, or else the table name) is unused; on success the alias is added to the used set and recorded for the table |
| SqlValidator.ValidateColumnName | parser.py:59-85 | the loop computes the column resolution specified by `ResolveColumn`, including every error |
| SqlValidator.CandidateAliases | parser.py:76-78 | the loop collects exactly the owners of the column, in registration order |
| SqlValidator.ResolveColumnSound | parser.py:59-85 | a resolved column belongs to a registered alias and is a column of that alias's table, and the input named it (qualified or not) |
| SqlValidator.UnqualifiedResolution | parser.py:74-85 | an unqualified name resolves iff exactly one alias owns it; more than one owner gives the ambiguity error |
| SqlValidator.ResolveRendered | parser.py:63-73 | rendering a resolved reference as `alias.column` and resolving it again gives the same reference |
| SqlValidator.ResolveQualified | parser.py:63-73 | a qualified name whose alias is in scope and whose column belongs to that alias's table resolves to (table, column, alias) |
| SqlValidator.RenderedNormal | parser.py:60-61 | an `alias.column` built from normalised parts is unchanged by normalisation |
| SqlValidator.ColumnNameNormal | parser.py:69 | every lower-cased schema column is already normal |
| SqlValidator.WordDotPrefix | parser.py:94 | the left operand is the longest prefix of word characters and dots |
| SqlValidator.WordDotPrefixChars | parser.py:94 | every character of that prefix is a word character or a dot |
| SqlValidator.DigitPrefix | parser.py:98 | the longest prefix of digits |
| SqlValidator.AlternativesAllowed | parser.py:138 | every operator the recogniser can return is an allowed one, so the check at this line never fails |
| SqlValidator.FirstAccepted | parser.py:93-104 | the chosen operator is a prefix of the text after the left operand |
| SqlValidator.FirstAcceptedSpec | parser.py:93-104 | the chosen alternative is the first, in order, whose operand shape accepts the rest; none is chosen only when no alternative accepts |
| SqlValidator.RecognizedShape | parser.py:93-136 | a recognised comparison has a non-empty left side of word characters and dots, an allowed operator, and a right side that its operand shape accepts |
| SqlValidator.RewrittenShape | parser.py:87-169 | a rewritten non-empty part reads `alias.column OP right`: the left side is a resolved column, OP is allowed, and the right side is a resolved column or a literal |
| SqlValidator.SpaceRunEnd | parser.py:174 | the end of the whitespace run starting at the index |
| SqlValidator.SeparatorAt | parser.py:174 | a separator found at an index ends after it |
| SqlValidator.NextSeparator | parser.py:174 | the next `\s+AND\s+` separator lies at or after the index |
| SqlValidator.NextSeparatorLeftmost | parser.py:174 | no separator starts before the one found |
| SqlValidator.SplitOnAnd | parser.py:174 | splitting always gives at least one part |
| SqlValidator.SplitOnAndParts | parser.py:174 | no part contains a separator |
| SqlValidator.SplitOnAndSingle | parser.py:174 | text without a separator is its own only part |
| SqlValidator.StripParens | parser.py:177 | stripping parentheses never lengthens the text |
| SqlValidator.StripParensEnds | parser.py:177 | the stripped part neither starts nor ends with a parenthesis |
| SqlValidator.Outcomes | parser.py:176-183 | there is one outcome per part |
| SqlValidator.CollectStep | parser.py:176-183 | collecting one more outcome extends the collected result by that outcome |
| SqlValidator.CollectSpec | parser.py:176-183 | the collection succeeds iff no part failed, and then holds the rewritten parts in order, with empty parts dropped; on failure it reports the first failing part's error |
| SqlValidator.CollectErrStays | parser.py:176-183 | once a part has failed, later parts do not change the result |
| SqlValidator.ProcessConditions | parser.py:172-183 | the loop computes the specified conjunct rewriting |
| SqlParse.KeySetHas | parser.py:54-55 | every registered alias is in the used-alias set |
| SqlParse.DetailsOfHas | parser.py:56 | every registered table has an entry in the table-to-alias map |
| SqlParse.DetailsOfDistinct | parser.py:56 | when no table is registered twice, each table maps to its own alias |
| SqlParse.AddTableKeepsScope | parser.py:50-57 | adding a table keeps the scope consistent, appends exactly one alias and keeps the earlier ones |
| SqlParse.RegisterJoinsKeepsScope | parser.py:215-222 | registering the joins keeps the scope consistent and appends one alias per join, in order |
| SqlParse.RegisterJoinLoop | parser.py:215-222 | the loop computes the specified join registration |
| SqlParse.RegisterJoinsErrStays | parser.py:215-219 | a failing join stops the registration with its error |
| SqlParse.RegisterJoinsAligned | parser.py:219-221 | after registration, each join record matches the alias registered for it |
| SqlParse.AddTableAligned | parser.py:219-221 | adding a joined table keeps join records and aliases aligned, and keeps the `FROM` alias first |
| SqlParse.RegisterClausesScope | parser.py:206-225 | registering `FROM` and the joins gives a consistent, aligned scope with one join record per join, with the `FROM` alias first |
| SqlParse.FromScope | parser.py:206-209 | registering the `FROM` table alone gives a scope holding just that alias |
| SqlParse.ResolveItemsSpec | parser.py:232-241 | the select list resolves iff every item resolves, and then gives one column per item, in order |
| SqlParse.ResolveItemLoop | parser.py:232-241 | the loop computes the specified select-list resolution |
| SqlParse.ResolveItemsErrStays | parser.py:238-240 | the first failing item decides the error |
| SqlParse.JoinConditionsSpec | parser.py:247-254 | each join keeps its table, alias and condition, in order, and gains the rewritten conjuncts of its condition |
| SqlParse.JoinConditionLoop | parser.py:247-254 | the loop computes the specified join-condition rewriting |
| SqlParse.JoinConditionsErrStays | parser.py:247-254 | the first failing join condition decides the error |
| SqlParse.ParseValidateSql | parser.py:186-256 | the method computes the specified validation, with every rejection case |
| SqlParse.ParseValidateSound | parser.py:186-256 | every accepted statement yields a consistent result: aliases registered and unique, columns resolved in scope, joins aligned |
| SqlParse.RegisterAll | parser.py:204-228 | the method computes the specified clause registration |
| SqlParse.CheckAll | parser.py:230-254 | the method computes the specified select, `WHERE` and `ON` checks |
| SqlParse.CheckClausesSound | parser.py:230-254 | the checks keep the scope and the items, and give one checked join per registered join |
| SqlParse.ValidateClausesSound | parser.py:204-256 | validating the clauses gives a consistent result |
| SqlParse.SelectOfSound | parser.py:231-242 | an explicit select list resolves to one in-scope column per item |
| SqlTranslator.TableOrder | parser.py:286 | the tables in projection order are the `FROM` table followed by one table per join |
| SqlTranslator.TableOrderEntries | parser.py:286 | the k-th table in that order is the k-th registered table |
| SqlTranslator.DetailLeaves | parser.py:269-272 | there is one leaf per join |
| SqlTranslator.ExpandTable | parser.py:291-293 | a table expands to one `alias.column` per schema column |
| SqlTranslator.ExpandColumns | parser.py:291-293 | the loop computes that expansion |
| SqlTranslator.Rendered | parser.py:296-299 | there is one attribute per selected column |
| SqlTranslator.RenderColumns | parser.py:296-299 | the loop renders the selected columns |
| SqlTranslator.Convert | parser.py:259-303 | the loop computes the specified translation |
| SqlTranslator.ExpandStar | parser.py:285-294 | the loop expands `*` table by table, in projection order |
| SqlTranslator.StarColumnsCovers | parser.py:285-294 | every column of every table in the order appears in the `*` expansion |
| SqlTranslator.ConsistentTranslatable | parser.py:259-291 | every lookup the translation makes succeeds on a consistent result |
| SqlTranslator.ParsedTranslatable | parser.py:306-310 | every statement the validator accepts can be translated |
| SqlTranslator.TranslateSelects | parser.py:275-279 | the translation is the projection over the join chain, wrapped in a selection exactly when there is a predicate |
| SqlTranslator.JoinPredicatesPrefix | parser.py:268-275 | the join predicates of the first joins are a prefix of those of all joins |
| SqlTranslator.JoinPredicatesInOrder | parser.py:268-275 | each join's predicates appear in join order, as a contiguous block |
| SqlTranslator.ChainContains | parser.py:266-272 | the join chain contains the base leaf and every join leaf |
| SqlTranslator.ProjectionColumns | parser.py:295-299 | explicit columns are projected as `alias.column`, in select order |
| SqlTranslator.Instances | parser.py:207-221 | the table instances are the `FROM` table followed by one per join |
| SqlTranslator.OwnLeaves | parser.py:269-272 | the corrected leaves have one entry per join |
| SqlTranslator.InstancesEntries | parser.py:207-221 | the k-th instance is the k-th registered (table, alias) pair |
| SqlTranslator.OwnChainLabelsAll | parser.py:269-272 | the corrected chain labels every registered table with its own alias |
| SqlTranslator.NoSelfJoinAgrees | parser.py:259-303 | without a self-join, the translation as written equals the corrected one |
| SqlTranslator.StarDistinct | parser.py:285-294 | without a self-join, `*` expands each table under its own alias |
| SqlTranslator.SelfJoinRelabelsFrom | parser.py:56 | a join on the `FROM` table overwrites the `FROM` alias in the table-to-alias map |
| SqlTranslator.DetailsOfLater | parser.py:56 | a table registered twice maps to the later alias |
| SqlTranslator.SelfJoinDetails | parser.py:264-272 | the sample self-join statement validates to a consistent scope |
| SqlTranslator.SelfJoinShared | parser.py:264-272 | the sample's predicate and projection |
| SqlTranslator.SelfJoinLeaves | parser.py:264-272 | as written, both leaves of the sample read `cliente[c2]` |
| SqlTranslator.SelfJoinAsWritten | parser.py:264-272 | the sample translates to `cliente[c2] ⨝ cliente[c2]` |
| SqlTranslator.SelfJoinCorrected | parser.py:264-272 | corrected, the sample translates to `cliente[c1] ⨝ cliente[c2]` |
| SqlTranslator.SelfJoinOwnLeaves | parser.py:264-272 | corrected, the leaves keep their own aliases |
| TreeBuilder.CloseOf | novo_plantando_arvores/parser.py:9-21 | the index of the matching `)` lies after the `(` and at most at the end |
| TreeBuilder.Between | novo_plantando_arvores/parser.py:9-21 | the text between the parentheses is shorter than the rest of the input |
| TreeBuilder.CloseOfMatches | novo_plantando_arvores/parser.py:9-21 | the index found holds the `)` that brings the depth back to zero, and the depth stays positive before it |
| TreeBuilder.BetweenBalanced | novo_plantando_arvores/parser.py:9-21 | for `(b)t` with balanced `b`, the extraction returns exactly `b` and the index of its `)` |
| TreeBuilder.ExtractSub | novo_plantando_arvores/parser.py:9-21 | the loop computes that sub-expression and index |
| TreeBuilder.OperatorEnd | novo_plantando_arvores/parser.py:37 | the label ends within the text |
| TreeBuilder.AfterLeft | novo_plantando_arvores/parser.py:48-49 | the text after the left operand is shorter than the input |
| TreeBuilder.RightText | novo_plantando_arvores/parser.py:52-58 | the right operand text is no longer than the rest |
| TreeBuilder.BuildNode | novo_plantando_arvores/parser.py:28-71 | the method builds fresh nodes whose value is the specified tree, or raises the specified error |
| TreeBuilder.BuildUnary | novo_plantando_arvores/parser.py:36-44 | a unary node is built as specified, with its operand as the only child |
| TreeBuilder.LinkLeft | novo_plantando_arvores/parser.py:42-43 | a fresh node with the operator as content and the given child on the left |
| TreeBuilder.BuildBinary | novo_plantando_arvores/parser.py:47-69 | a binary node is built as specified, or the specified error is raised |
| TreeBuilder.BuildPair | novo_plantando_arvores/parser.py:65-69 | both operands are built, and the first error met wins |
| TreeBuilder.Link | novo_plantando_arvores/parser.py:66-68 | a fresh node with the operator as content and both children |
| TreeBuilder.BuildTree | novo_plantando_arvores/parser.py:23-26 | the tree's root is the node built from the stripped input |
| TreeBuilder.StripTwice | novo_plantando_arvores/parser.py:25-29 | stripping twice, in `construir_arvore` and again in `_construir_no`, is the same as stripping once |
| BinaryTree.TreeNode.constructor | novo_plantando_arvores/arvore.py:15-18 | a new node holds the content and has no children |
| BinaryTree.TreeNode.SetLeft | novo_plantando_arvores/parser.py:43 | only the left child changes |
| BinaryTree.TreeNode.SetRight | novo_plantando_arvores/parser.py:68 | only the right child changes |
| BinaryTree.Indent | novo_plantando_arvores/arvore.py:53 | the indentation is 3×level spaces |
| BinaryTree.Condition | novo_plantando_arvores/arvore.py:86-96 | the condition drops the first two characters and the last one |
| BinaryTree.ConditionOfSelect | novo_plantando_arvores/arvore.py:86-96 | the condition of `𝛔[c]` is `c` |
| BinaryTree.Tree.constructor | novo_plantando_arvores/arvore.py:28-29 | a new tree has no root |
| BinaryTree.Tree.SetRoot | novo_plantando_arvores/parser.py:25 | the tree's value becomes the node's value |
| BinaryTree.Tree.Reconstruct | novo_plantando_arvores/arvore.py:31-40 | an empty tree gives no text; otherwise the method gives the rendering from the root at level 0 |
| BinaryTree.Tree.Traverse | novo_plantando_arvores/arvore.py:42-72 | the recursive method computes the specified rendering at the given level |
| BinaryTree.Tree.RenderBinary | novo_plantando_arvores/arvore.py:130-167 | a join or product renders as `(left) op (right)`, with the children one level deeper |
| BinaryTree.Tree.CombineSelects | novo_plantando_arvores/arvore.py:98-128 | stacked selections fold as specified |
| BinaryTree.Tree.TraverseJoined | novo_plantando_arvores/arvore.py:117-120 | the merged selection renders like a single selection over the inner operand |
| TreeProperties.UnaryNotBinary | novo_plantando_arvores/parser.py:3-7 | a unary label is never also binary |
| TreeProperties.UnaryLabel | novo_plantando_arvores/parser.py:36-38 | the label cut from a unary expression is still a unary label |
| TreeProperties.BinaryLabelKept | novo_plantando_arvores/parser.py:52-58 | the label of a join or product stays a binary label |
| TreeProperties.BuildWellBuilt | novo_plantando_arvores/parser.py:28-71 | every tree the builder makes is well built: unary nodes have one left child, binary nodes two, leaves none |
| TreeProperties.NodeWellBuilt | novo_plantando_arvores/parser.py:28-71 | the same for every node built |
| TreeProperties.UnaryWellBuilt | novo_plantando_arvores/parser.py:36-44 | the same for every unary node built |
| TreeProperties.BinaryWellBuilt | novo_plantando_arvores/parser.py:47-69 | the same for every binary node built |
| TreeProperties.RenderWellBuilt | novo_plantando_arvores/arvore.py:42-167 | a well-built tree always renders (the printer never meets a missing child) |
| TreeProperties.FoldWellBuilt | novo_plantando_arvores/arvore.py:98-128 | folding selections over a well-built tree always renders |
| TreeProperties.BuiltTreesPrint | novo_plantando_arvores/arvore.py:31-40 | every tree the builder makes prints |
| TreeProperties.RenderCanonical | novo_plantando_arvores/arvore.py:42-72 | a canonical tree renders as its closed-form text |
| TreeProperties.RenderUnaryCanonical | novo_plantando_arvores/arvore.py:66-72 | a unary node renders as `content(`, its child one level deeper, then `)` |
| TreeProperties.RenderBinaryCanonical | novo_plantando_arvores/arvore.py:130-167 | a binary node renders as `(left) op (right)` |
| TreeProperties.BinaryDispatch | novo_plantando_arvores/arvore.py:61-64 | a canonical binary node takes the join/product branch |
| TreeProperties.BodyFacts | novo_plantando_arvores/arvore.py:42-72 | the rendered text of a canonical tree is non-empty, stripped and balanced |
| TreeProperties.ParseBody | novo_plantando_arvores/parser.py:28-71 | parsing the rendered text of a canonical tree gives the tree back |
| TreeProperties.ReadOperand | novo_plantando_arvores/parser.py:9-21 | a rendered operand is balanced and parses back to the subtree |
| TreeProperties.ParseUnary | novo_plantando_arvores/parser.py:36-44 | a rendered unary node parses back to itself |
| TreeProperties.ReadUnaryText | novo_plantando_arvores/parser.py:36-44 | `c(b)` parses to the node `c` whose left child is the tree of `b` |
| TreeProperties.ParseBinary | novo_plantando_arvores/parser.py:47-69 | a rendered binary node parses back to itself |
| TreeProperties.ReadBinaryText | novo_plantando_arvores/parser.py:47-69 | `(b1) c (b2)` parses to the node `c` over the trees of `b1` and `b2` |
| TreeProperties.BinaryTextReads | novo_plantando_arvores/parser.py:47-69 | the binary branch reads `(b1) c (b2)` as that pair |
| TreeProperties.NodeFromBinary | novo_plantando_arvores/parser.py:32-47 | text with an operator, not unary and starting with `(`, takes the binary branch |
| TreeProperties.ReadRight | novo_plantando_arvores/parser.py:52-58 | after the left operand, the operator and the right operand are read back |
| TreeProperties.ReadOperator | novo_plantando_arvores/parser.py:52-58 | the label and the right text are split where the label ends |
| TreeProperties.ReadLeft | novo_plantando_arvores/parser.py:48-49 | the left operand and the stripped rest are read back |
| TreeProperties.LabelEnd | novo_plantando_arvores/parser.py:37-38 | the label runs exactly to its first `]` |
| TreeProperties.RoundTrip | novo_plantando_arvores/parser.py:23-71 | printing a canonical tree and building again gives the same tree |
| TreeProperties.ChainFolds | novo_plantando_arvores/arvore.py:98-128 | a chain of stacked selections prints as one selection whose condition is the folded conjunction |
| TreeProperties.SelectionsMerge | novo_plantando_arvores/arvore.py:109-128 | two stacked selections print as one with condition `(a) ^ (b)` |
| AlgebraFormat.Collapse | novo_plantando_arvores/algebra_utils_clause.py:17 | collapsing whitespace never lengthens the text |
| AlgebraFormat.CollapseTidy | novo_plantando_arvores/algebra_utils_clause.py:17 | after collapsing, the only whitespace is single spaces |
| AlgebraFormat.CollapseKeeps | novo_plantando_arvores/algebra_utils_clause.py:17 | tidy text is unchanged by collapsing |
| AlgebraFormat.DropAfter | novo_plantando_arvores/algebra_utils_clause.py:18-20 | dropping the spaces after an opener never lengthens the text and keeps its first character |
| AlgebraFormat.DropAfterTidy | novo_plantando_arvores/algebra_utils_clause.py:18-20 | afterwards no space follows that opener, and earlier tidiness is kept |
| AlgebraFormat.DropAfterKeeps | novo_plantando_arvores/algebra_utils_clause.py:18-20 | text already tidy for that opener is unchanged |
| AlgebraFormat.DropBefore | novo_plantando_arvores/algebra_utils_clause.py:19-21 | dropping the spaces before a closer never lengthens the text |
| AlgebraFormat.DropBeforeTidy | novo_plantando_arvores/algebra_utils_clause.py:19-21 | afterwards no space precedes that closer, and earlier tidiness is kept |
| AlgebraFormat.DropBeforeKeeps | novo_plantando_arvores/algebra_utils_clause.py:19-21 | text already tidy for that closer is unchanged |
| AlgebraFormat.StripTidy | novo_plantando_arvores/algebra_utils_clause.py:22 | stripping keeps tidiness |
| AlgebraFormat.FormatFormatted | novo_plantando_arvores/algebra_utils_clause.py:5-22 | formatted text has no surrounding whitespace, only single spaces, and no space after `(`/`[` or before `)`/`]` |
| AlgebraFormat.FormatKeeps | novo_plantando_arvores/algebra_utils_clause.py:5-22 | formatted text is a fixed point of formatting |
| AlgebraFormat.FormatIdempotent | novo_plantando_arvores/algebra_utils_clause.py:5-22 | formatting twice is formatting once |
| AlgebraFormat.Format | novo_plantando_arvores/algebra_utils_clause.py:5-22 | formatting never lengthens the text and leaves no surrounding whitespace |
| AlgebraClauses.GroupEnd | novo_plantando_arvores/algebra_utils_clause.py:35-44 | the index past the group lies after its `(` |
| AlgebraClauses.GroupShape | novo_plantando_arvores/algebra_utils_clause.py:35-44 | a closed group is `(` + balanced text + `)` |
| AlgebraClauses.GroupOfBalanced | novo_plantando_arvores/algebra_utils_clause.py:35-44 | in `p(b)t` with balanced `b`, the group at `p` is exactly `(b)` |
| AlgebraClauses.Subexpression | novo_plantando_arvores/algebra_utils_clause.py:24-44 | the loop returns the group through its matching `)` and the index past it |
| AlgebraClauses.Inner | novo_plantando_arvores/algebra_utils_clause.py:87 | removing the outer characters shortens the text by two |
| AlgebraClauses.Pieces | novo_plantando_arvores/algebra_utils_clause.py:127-149 | the split gives at least one piece |
| AlgebraClauses.PiecesJoin | novo_plantando_arvores/algebra_utils_clause.py:127-149 | joining the pieces with `∧` gives the input back |
| AlgebraClauses.PiecesNested | novo_plantando_arvores/algebra_utils_clause.py:127-149 | every `∧` left inside a piece is inside parentheses |
| AlgebraClauses.PiecesPrefix | novo_plantando_arvores/algebra_utils_clause.py:127-149 | a prefix without a top-level `∧` stays in the first piece |
| AlgebraClauses.ScanFromPending | novo_plantando_arvores/algebra_utils_clause.py:127-149 | the loop state always equals the parts done plus the pending split of the rest |
| AlgebraClauses.SplitConjunction | novo_plantando_arvores/algebra_utils_clause.py:116-149 | the loop computes the specified conjuncts |
| AlgebraClauses.ConjunctsOfJoin | novo_plantando_arvores/algebra_utils_clause.py:102-149 | conjuncts joined with ` ∧ ` split back into themselves |
| AlgebraClauses.ConjunctsJoined | novo_plantando_arvores/algebra_utils_clause.py:102-149 | splitting a ` ∧ ` conjunction of conjuncts gives the list back |
| AlgebraClauses.ParenthesisedConjunct | novo_plantando_arvores/algebra_utils_clause.py:131-145 | a parenthesised balanced text is a single conjunct |
| AlgebraClauses.RunEnd | novo_plantando_arvores/algebra_utils_clause.py:218 | the end of the maximal run of `[A-Za-z0-9_]` characters |
| AlgebraClauses.LeadingQualifier | novo_plantando_arvores/algebra_utils_clause.py:218 | the name before `.field` is a dependent table |
| AlgebraClauses.QualifiersSound | novo_plantando_arvores/algebra_utils_clause.py:207-219 | every dependent table is a name that directly precedes `.identifier` in the text |
| AlgebraClauses.AliasesSound | novo_plantando_arvores/algebra_utils_clause.py:221-233 | every alias found is the bracketed alias of some `Name[Alias]` in the text |
| AlgebraClauses.DependentTables | novo_plantando_arvores/algebra_utils_clause.py:207-219 | every dependent table is a non-empty run of `[A-Za-z0-9_]` characters |
| AlgebraClauses.ExpressionTables | novo_plantando_arvores/algebra_utils_clause.py:221-233 | every alias found is a non-empty run of `[A-Za-z0-9_]` characters |
| AlgebraClauses.LoneTable | novo_plantando_arvores/algebra_utils_clause.py:232-233 | `T[a]` has the single alias `a` |
| AlgebraClauses.LazyClose | novo_plantando_arvores/algebra_utils_clause.py:103 | the lazy match stops at a `](` |
| AlgebraClauses.FirstSelection | novo_plantando_arvores/algebra_utils_clause.py:170-171 | a selection found starts with `𝛔[` |
| AlgebraClauses.FirstSelectionLeftmost | novo_plantando_arvores/algebra_utils_clause.py:170-171 | no selection starts before the one found |
| AlgebraClauses.LazyCloseAfter | novo_plantando_arvores/algebra_utils_clause.py:170-171 | the lazy match stops at the first `](` |
| AlgebraUnnest.SiteOf | novo_plantando_arvores/algebra_utils_clause.py:170-183 | the operand and the text after the selection are shorter than the input |
| AlgebraUnnest.SiteFrom | novo_plantando_arvores/algebra_utils_clause.py:170-183 | the same, for a selection at a known index |
| AlgebraUnnest.SelectionSite | novo_plantando_arvores/algebra_utils_clause.py:170-183 | `𝛔[c](b)` is cut into the condition `c` and the operand `b` |
| AlgebraUnnest.SiteAt | novo_plantando_arvores/algebra_utils_clause.py:164-203 | the cut is at the first selection, its lazy `](` and its matching `)` |
| AlgebraUnnest.UnnestSite | novo_plantando_arvores/algebra_utils_clause.py:164-203 | the text before, nested conjuncts over the unnested operand, then the unnested rest |
| AlgebraUnnest.UnnestFrom | novo_plantando_arvores/algebra_utils_clause.py:164-203 | the recursive method computes the specified unnesting |
| AlgebraUnnest.UnnestAt | novo_plantando_arvores/algebra_utils_clause.py:164-203 | unnesting at the first selection |
| AlgebraUnnest.NestAll | novo_plantando_arvores/algebra_utils_clause.py:192-194 | the loop nests the conjuncts, the first outermost |
| AlgebraUnnest.UnnestSelects | novo_plantando_arvores/algebra_utils_clause.py:151-205 | the method unnests the formatted input |
| AlgebraUnnest.UnnestSelection | novo_plantando_arvores/algebra_utils_clause.py:151-205 | `𝛔[c](b)` becomes one selection per conjunct of `c`, over the unnested `b` |
| AlgebraUnnest.UnnestConjunction | novo_plantando_arvores/algebra_utils_clause.py:151-205 | `𝛔[c1 ∧ … ∧ cn](b)` becomes `𝛔[c1](…𝛔[cn](b')…)`, with the first conjunct outermost |
| AlgebraUnnest.UnnestBalanced | novo_plantando_arvores/algebra_utils_clause.py:151-205 | unnesting balanced text whose selection conditions are balanced gives balanced text |
| AlgebraUnnest.UnnestSettles | novo_plantando_arvores/algebra_utils_clause.py:164-203 | unnesting keeps the parentheses of text settling a count settling it, so nothing it cuts out is unbalanced |
| AlgebraUnnest.StripBalanced | novo_plantando_arvores/algebra_utils_clause.py:139-148 | stripping balanced text keeps it balanced |
| AlgebraUnnest.ConjunctsBalanced | novo_plantando_arvores/algebra_utils_clause.py:189 | the conjuncts of a balanced condition are balanced |
| AlgebraUnnest.GroupCloses | novo_plantando_arvores/algebra_utils_clause.py:24-44 | a `(` whose rest does not raise the count is closed within the text |
| Parens.StaysAboveJoin | novo_plantando_arvores/algebra_utils_clause.py:35-43 | the depth stays above a bound through `a + b` when it does through `a` and then through `b` from where `a` ends |
| Parens.StaysAboveCut | novo_plantando_arvores/algebra_utils_clause.py:35-43 | and the other way round |
| Parens.SettlesCut | novo_plantando_arvores/algebra_utils_clause.py:35-43 | a prefix of settling text stays above the count, and the rest settles from where the prefix ends |
| Parens.SettlesAround | novo_plantando_arvores/algebra_utils_clause.py:35-43 | replacing a middle part by balanced text keeps the whole settling |
| AlgebraJoins.SkipSpaces | novo_plantando_arvores/algebra_utils_clause.py:71-72 | the index of the next non-space |
| AlgebraJoins.SkipSpacesFrom | novo_plantando_arvores/algebra_utils_clause.py:71-72 | the loop finds that index |
| AlgebraJoins.Substitute | novo_plantando_arvores/algebra_utils_clause.py:62-97 | rewriting never adds a `(` or a `⨝` |
| AlgebraJoins.SubstituteJoins | novo_plantando_arvores/algebra_utils_clause.py:62-97 | the restart loop computes the join substitution, resuming after each rewritten group |
| AlgebraJoins.ProductOfJoins | novo_plantando_arvores/algebra_utils_clause.py:62-97 | in a product of two joins, both joins become products and both conditions are collected, left first |
| AlgebraJoins.ProductOfGroups | novo_plantando_arvores/algebra_utils_clause.py:62-97 | the operands of a product are rewritten one after the other, each as if alone |
| AlgebraJoins.PlainUnchanged | novo_plantando_arvores/algebra_utils_clause.py:62-97 | text without parentheses is unchanged and yields no condition |
| AlgebraJoins.ScanJoins | novo_plantando_arvores/algebra_utils_clause.py:66-97 | the scan never adds a `(` or a `⨝` |
| AlgebraJoins.ShapeAfter | novo_plantando_arvores/algebra_utils_clause.py:70-85 | a join found after a group has its right operand group in the text |
| AlgebraJoins.ReadShape | novo_plantando_arvores/algebra_utils_clause.py:70-85 | the method finds that shape |
| AlgebraJoins.RewriteGroup | novo_plantando_arvores/algebra_utils_clause.py:68-94 | rewriting a group never adds a `(` or a `⨝` |
| AlgebraJoins.Parenthesised | novo_plantando_arvores/algebra_utils_clause.py:102 | one parenthesised condition per collected condition |
| AlgebraJoins.RemoveJoins | novo_plantando_arvores/algebra_utils_clause.py:46-114 | the method computes `JoinsRemoved`: the join substitution, then the insertion of the collected conditions, or the error `re.sub` raises; what that means for every join is stated by the lemmas below |
| AlgebraJoins.JoinOfNames | novo_plantando_arvores/algebra_utils_clause.py:73-89 | `(l) ⨝[c] (r)` becomes `(l X r)` and collects the stripped `c` |
| AlgebraJoins.SkipsSecondJoin | novo_plantando_arvores/algebra_utils_clause.py:90-94 | resuming at the old index leaves the second join of a product of two joins in place |
| AlgebraJoins.PlainGroup | novo_plantando_arvores/algebra_utils_clause.py:90-94 | a group without a join is kept as it is |
| AlgebraJoins.RemovesEveryJoin | novo_plantando_arvores/algebra_utils_clause.py:62-97 | on the text of a well-formed term, the substitution replaces every join by a product and collects every join condition, stripped, in left-to-right order |
| AlgebraJoins.TermBalanced | novo_plantando_arvores/algebra_utils_clause.py:62-97 | a well-formed term's text is balanced, and so is its join-free form, which holds no `⨝` |
| AlgebraJoins.ProductBalanced | novo_plantando_arvores/algebra_utils_clause.py:86-88 | `(a) X (b)` of balanced operands is balanced, and has a `⨝` only if an operand has one |
| AlgebraJoins.JoinOfGroups | novo_plantando_arvores/algebra_utils_clause.py:73-89 | `(a) ⨝[c] (b)` becomes `(a' X b')` of the rewritten operands, collecting the stripped `c` before their conditions |
| AlgebraJoins.UnaryGroup | novo_plantando_arvores/algebra_utils_clause.py:90-94 | an operator applied to a group keeps the operator; the group's inside is rewritten |
| AlgebraJoins.JoinFreeScan | novo_plantando_arvores/algebra_utils_clause.py:66-97 | text without `⨝` passes the scan unchanged and adds no condition |
| AlgebraJoins.ConditionsBalanced | novo_plantando_arvores/algebra_utils_clause.py:73-89 | every join condition of a well-formed term is balanced |
| AlgebraJoins.UnjoinedKeepsOut | novo_plantando_arvores/algebra_utils_clause.py:62-97 | the substitution adds no character other than parentheses, spaces and `X` |
| AlgebraJoins.ConditionsKeepOut | novo_plantando_arvores/algebra_utils_clause.py:73-89 | a join condition holds only characters of the term's text |
| AlgebraJoins.TemplateToken | novo_plantando_arvores/algebra_utils_clause.py:108 | a template token takes at least one character and no more than the template has; its only error is the bad-template error |
| AlgebraJoins.Expand | novo_plantando_arvores/algebra_utils_clause.py:108 | expanding a template fails only with the bad-template error |
| AlgebraJoins.ExpandPrefix | novo_plantando_arvores/algebra_utils_clause.py:108 | a backslash-free prefix of the template is copied in front of the rest's expansion |
| AlgebraJoins.ExpandLiteral | novo_plantando_arvores/algebra_utils_clause.py:108 | a template without a backslash stands for itself |
| AlgebraJoins.ExpandGroup | novo_plantando_arvores/algebra_utils_clause.py:108 | `\1` not followed by a digit stands for the group's text |
| AlgebraJoins.ExpandEscape | novo_plantando_arvores/algebra_utils_clause.py:108 | an escape such as `\n` stands for its character |
| AlgebraJoins.ExpandBadEscape | novo_plantando_arvores/algebra_utils_clause.py:108 | an escaped ASCII letter that is neither an escape nor `\g` makes the expansion fail |
| AlgebraJoins.ExpandKeepsOut | novo_plantando_arvores/algebra_utils_clause.py:108 | expansion adds no character from outside Latin-1 that the template, the match and the group lack |
| AlgebraJoins.InsertConditions | novo_plantando_arvores/algebra_utils_clause.py:99-110 | with no condition the text is returned as it is; an error arises only when there are conditions and the text has a selection (whose condition becomes a template) |
| AlgebraJoins.InsertWraps | novo_plantando_arvores/algebra_utils_clause.py:100-110 | without a selection, the conditions, each in parentheses and joined by ` ∧ `, become one new selection around the text, and they split back into those conjuncts |
| AlgebraJoins.InsertExtends | novo_plantando_arvores/algebra_utils_clause.py:103-108 | with a selection `𝛔[e](` and no backslash, the conditions are appended to `e` as ` ∧ (c1) ∧ … ∧ (cn)`, and the rest of the text is kept |
| AlgebraJoins.ExtendedConjuncts | novo_plantando_arvores/algebra_utils_clause.py:106-107 | the extended condition splits into the old conjuncts followed by the parenthesised new ones |
| AlgebraJoins.InsertBadEscape | novo_plantando_arvores/algebra_utils_clause.py:108 | a bad escape in the existing condition makes `remover_joins` raise |
| AlgebraJoins.InsertGroupCopy | novo_plantando_arvores/algebra_utils_clause.py:108 | `\1` in the existing condition is replaced by that whole condition |
| AlgebraJoins.InsertNoJoin | novo_plantando_arvores/algebra_utils_clause.py:99-110 | inserting conditions without `⨝` into text without `⨝` adds none |
| AlgebraJoins.InsertWithoutBackslash | novo_plantando_arvores/algebra_utils_clause.py:99-110 | with no backslash in the text or the conditions, insertion never fails |
| AlgebraJoins.RemoveJoinsOfTerm | novo_plantando_arvores/algebra_utils_clause.py:46-114 | on text that formats into a well-formed term, `remover_joins` inserts the term's join conditions into its join-free form |
| AlgebraJoins.NoJoinLeft | novo_plantando_arvores/algebra_utils_clause.py:46-114 | on such text, a successful `remover_joins` leaves no `⨝` |
| AlgebraJoins.RemoveJoinsWithoutSelection | novo_plantando_arvores/algebra_utils_clause.py:46-114 | on such text without a selection: no join leaves the text as formatted; otherwise the result is one selection over the join-free text whose conjuncts are the parenthesised join conditions, in order |
| AlgebraJoins.RemoveJoinsUnderSelection | novo_plantando_arvores/algebra_utils_clause.py:46-114 | on `𝛔[e](…)` over joins, with no backslash, the joins become products and the parenthesised join conditions are appended to `e` as conjuncts |
| AlgebraPushdown.TailGroup | novo_plantando_arvores/algebra_utils_clause.py:292 | the greedy tail group is shorter than the text |
| AlgebraPushdown.Wrapped | novo_plantando_arvores/algebra_utils_clause.py:292 | the body of a wrapped operator is shorter than the text |
| AlgebraPushdown.SelectionCut | novo_plantando_arvores/algebra_utils_clause.py:292 | `m[c](b)` is cut into `c` and `b` |
| AlgebraPushdown.ExtractSelects | novo_plantando_arvores/algebra_utils_clause.py:280-303 | the loop takes off the top selections as specified |
| AlgebraPushdown.ExtractWrap | novo_plantando_arvores/algebra_utils_clause.py:280-303 | taking the selections off a wrapped text gives back the text and the conditions, outermost first |
| AlgebraPushdown.ExtractSelection | novo_plantando_arvores/algebra_utils_clause.py:291-301 | one selection is taken off with its dependent tables |
| AlgebraPushdown.MainOperator | novo_plantando_arvores/algebra_utils_clause.py:355-374 | a main operator found is a `⨝[` or an `X`, within the text |
| AlgebraPushdown.FindMainOperator | novo_plantando_arvores/algebra_utils_clause.py:355-374 | the loop finds that operator |
| AlgebraPushdown.Operands | novo_plantando_arvores/algebra_utils_clause.py:379-389 | the operands lie within the text |
| AlgebraPushdown.ProductOperands | novo_plantando_arvores/algebra_utils_clause.py:379-389 | `l X r` of two atoms has operands `l` and `r` |
| AlgebraPushdown.WrapSelections | novo_plantando_arvores/algebra_utils_clause.py:421-424 | the loop wraps the conditions, the last outermost |
| AlgebraPushdown.PartitionSelections | novo_plantando_arvores/algebra_utils_clause.py:396-409 | the loop partitions the selections as specified |
| AlgebraPushdown.PartitionKeeps | novo_plantando_arvores/algebra_utils_clause.py:401-409 | the partition loses and adds no selection |
| AlgebraPushdown.PartitionSorts | novo_plantando_arvores/algebra_utils_clause.py:401-409 | left holds those within the left aliases; right those within the right aliases only; both those within the union only; rest the others |
| AlgebraPushdown.MatchingKeeps | novo_plantando_arvores/algebra_utils_clause.py:325-326 | matching and other selections together are all the selections |
| AlgebraPushdown.MatchingSorts | novo_plantando_arvores/algebra_utils_clause.py:325-326 | the matching selections depend on the alias alone, the others do not |
| AlgebraPushdown.ApplySelects | novo_plantando_arvores/algebra_utils_clause.py:306-438 | the recursive method places the selections as specified |
| AlgebraPushdown.ApplyCounts | novo_plantando_arvores/algebra_utils_clause.py:306-438 | each selection is placed once or handed back, when handed on; when dropped, none is duplicated |
| AlgebraPushdown.ApplyRestFrom | novo_plantando_arvores/algebra_utils_clause.py:306-438 | only given selections are handed back |
| AlgebraPushdown.LeafCounts | novo_plantando_arvores/algebra_utils_clause.py:318-333 | the same at a leaf |
| AlgebraPushdown.ApplyLeaf | novo_plantando_arvores/algebra_utils_clause.py:318-333 | at `T[a]`, exactly the selections on `a` alone wrap the leaf, and the others are handed back |
| AlgebraPushdown.LeafAlias | novo_plantando_arvores/algebra_utils_clause.py:318 | `T[a]` is read as a leaf with alias `a` |
| AlgebraPushdown.ApplyBinaryCounts | novo_plantando_arvores/algebra_utils_clause.py:350-426 | the counting property at a binary node |
| AlgebraPushdown.ApplyBinaryRestFrom | novo_plantando_arvores/algebra_utils_clause.py:398-426 | only given selections are handed back from a binary node |
| AlgebraPushdown.PushSelectsDown | novo_plantando_arvores/algebra_utils_clause.py:264-451 | the method takes off the selections, places them and wraps what is handed back on top |
| AlgebraPushdown.PushDown | novo_plantando_arvores/algebra_utils_clause.py:264-451 | when the taken-off text has no nested selection and the conditions no `𝛔`, the result has exactly as many selections as were taken off |
| AlgebraPushdown.PushDownCounts | novo_plantando_arvores/algebra_utils_clause.py:440-451 | with the leftovers handed on, the result has as many selections as were taken off; with them dropped, no more |
| AlgebraPushdown.PushDownCountsIn | novo_plantando_arvores/algebra_utils_clause.py:445-449 | re-wrapping the handed-back selections completes the count |
| AlgebraPushdown.ProductOperator | novo_plantando_arvores/algebra_utils_clause.py:359-374 | the main operator of `l X r` is its `X` |
| AlgebraPushdown.ProductOfLeaves | novo_plantando_arvores/algebra_utils_clause.py:350-426 | over `(T1[a] X T2[b])`: selections on `a` alone wrap the left relation, on `b` alone the right one, on both the product; the rest is handed back |
| AlgebraPushdown.ProductOfAtoms | novo_plantando_arvores/algebra_utils_clause.py:350-426 | the same over any two relations |
| AlgebraPushdown.ApplyGroup | novo_plantando_arvores/algebra_utils_clause.py:350-377 | a parenthesised text with a main operator is treated as a binary node |
| AlgebraPushdown.ApplyBinaryProduct | novo_plantando_arvores/algebra_utils_clause.py:378-426 | the placement at a product of two relations |
| AlgebraPushdown.DropsUnqualified | novo_plantando_arvores/algebra_utils_clause.py:412-413 | as written, a selection with no `alias.attribute` over a product of two relations is lost |
| AlgebraPushdown.UnqualifiedOverAtoms | novo_plantando_arvores/algebra_utils_clause.py:412-413 | that selection is lost when dropped and kept on top when handed on |
| AlgebraPushdown.KeepsUnqualified | novo_plantando_arvores/algebra_utils_clause.py:447-449 | corrected, that selection stays over the product |
| AlgebraPushdown.NoDotNoTables | novo_plantando_arvores/algebra_utils_clause.py:218 | a condition without a dot depends on no table |
| QueryProcessing.Cut | plantando_arvores/processamento_consultas.py:26-40 | the split gives at least one part |
| QueryProcessing.CutJoins | plantando_arvores/processamento_consultas.py:26-40 | joining the parts with `∧` gives the condition back, so the parts keep their spaces and parentheses |
| QueryProcessing.SplitConditions | plantando_arvores/processamento_consultas.py:13-40 | the loop computes the specified split |
| QueryProcessing.CutAbove | plantando_arvores/processamento_consultas.py:29-38 | text inside parentheses is never cut |
| QueryProcessing.WrappedUncut | plantando_arvores/processamento_consultas.py:29-38 | a parenthesised group stays in one part |
| QueryProcessing.CutPlain | plantando_arvores/processamento_consultas.py:29-38 | plain text stays in the current part |
| QueryProcessing.CutNested | plantando_arvores/processamento_consultas.py:17-18 | `A ∧ (B ∧ C)` splits into two parts, the second keeping its inner `∧` |
| QueryProcessing.Enclosed | plantando_arvores/processamento_consultas.py:54-62 | the index of the matching `)` lies within the text |
| QueryProcessing.EnclosedSpec | plantando_arvores/processamento_consultas.py:54-62 | the index found is the first where the depth returns to zero; the error is raised only when it never does |
| QueryProcessing.EnclosedGroup | plantando_arvores/processamento_consultas.py:54-62 | in `p(b)t` with balanced `b`, the content is `b` and the index is that of its `)` |
| QueryProcessing.ExtractContent | plantando_arvores/processamento_consultas.py:43-62 | the loop computes the content and the index, or raises |
| QueryProcessing.Unwrap | plantando_arvores/processamento_consultas.py:75-83 | unwrapping never lengthens the text |
| QueryProcessing.UnwrapStops | plantando_arvores/processamento_consultas.py:75-83 | the result is no longer wrapped in a matching outer pair |
| QueryProcessing.UnwrapGroup | plantando_arvores/processamento_consultas.py:75-83 | `(b)` unwraps as the stripped `b` does |
| QueryProcessing.RemoveOuter | plantando_arvores/processamento_consultas.py:65-83 | the loop computes the specified unwrapping |
| QueryProcessing.UnwrapIdempotent | plantando_arvores/processamento_consultas.py:65-83 | unwrapping twice is unwrapping once |
| QueryProcessing.JoinLines | plantando_arvores/processamento_consultas.py:97 | joining the lines never lengthens the text |
| QueryProcessing.JoinLinesKeeps | plantando_arvores/processamento_consultas.py:97 | text without line breaks is unchanged |
| QueryProcessing.FindPair | plantando_arvores/processamento_consultas.py:102 | `-1` or the index of a `](` |
| QueryProcessing.TopOperator | plantando_arvores/processamento_consultas.py:122-134 | the operator found is a `⨝` or an `X` |
| QueryProcessing.BuildChain | plantando_arvores/processamento_consultas.py:108-114 | the loop builds the specified chain of selections |
| QueryProcessing.ChainShaped | plantando_arvores/processamento_consultas.py:108-114 | the chain is shaped: selections and projections have one child, products two, leaves none |
| QueryProcessing.Processar | plantando_arvores/processamento_consultas.py:86-137 | the recursive method computes the specified tree |
| QueryProcessing.ProcessShaped | plantando_arvores/processamento_consultas.py:86-137 | every tree `processar` builds is shaped |
| QueryProcessing.ProcessOperator | plantando_arvores/processamento_consultas.py:100-119 | the unary branch as specified |
| QueryProcessing.UnaryShaped | plantando_arvores/processamento_consultas.py:100-119 | the unary branch builds shaped trees |
| QueryProcessing.ProcessOperatorText | plantando_arvores/processamento_consultas.py:100-119 | `𝛔[c](b)` gives one `σ` node per conjunct over the tree of `b`; `𝝿[c](b)` gives one `π c` node |
| QueryProcessing.ProcessRest | plantando_arvores/processamento_consultas.py:122-137 | the binary and leaf branches as specified |
| QueryProcessing.BinaryShaped | plantando_arvores/processamento_consultas.py:122-137 | the binary branch builds shaped trees |
| QueryProcessing.ProcessName | plantando_arvores/processamento_consultas.py:137 | a plain name becomes a leaf holding it |
| QueryProcessing.ProcessNames | plantando_arvores/processamento_consultas.py:122-134 | `l ⨝ r` and `l X r` become a node `X` with leaves `l` and `r` |
| NaryTree.SizeSwap | plantando_arvores/otimizador.py:56-59 | swapping a selection below its child keeps the number of nodes |
| NaryTree.LabelsSwap | plantando_arvores/otimizador.py:56-59 | swapping a selection below its child keeps the labels |
| NaryTree.ShapedSound | plantando_arvores/processamento_consultas.py:86-137 | every tree `processar` builds whose leaves are relations can be indexed as the optimisers index it, and its selections have one operand |
| NaryTree.JoinNodeSound | plantando_arvores/otimizador.py:100-102 | a join node over indexable children can be indexed |
| Optimizer.AliasesIn | plantando_arvores/otimizador.py:12-25 | the loop collects the specified aliases |
| Optimizer.Aliases | plantando_arvores/otimizador.py:12-25 | every alias found in a condition is made of `str.isalnum` characters only |
| Optimizer.AliasesSeparated | plantando_arvores/otimizador.py:16-22 | a character outside a run (such as `_`) splits the text into independent runs |
| Optimizer.AfterLast | plantando_arvores/otimizador.py:30 | the part after the last `[` |
| Optimizer.LeafAliasOf | plantando_arvores/otimizador.py:29-30 | the alias of `t[a]` is `a` |
| Optimizer.FusedJoinHidesAliases | plantando_arvores/otimizador.py:27-35 | a fused `⨝ cond` node has no aliases |
| Optimizer.AliasesSubtree | plantando_arvores/otimizador.py:27-35 | every alias collected is the alias `LeafAlias(l)` of some label `l` of the tree that ends in `]` (`r <= LeafAliases(n)`) |
| Optimizer.AliasesOfRelationTree | plantando_arvores/otimizador.py:27-35 | on a tree of relations `tabela[alias]` under selections, projections and products, the aliases collected are exactly the aliases of its leaves |
| Optimizer.AliasesBracketFree | plantando_arvores/otimizador.py:29-30 | no alias of a subtree holds a `[` |
| Optimizer.PushSelections | plantando_arvores/otimizador.py:40-81 | the pass keeps the tree indexable and never grows it |
| Optimizer.PushSelectionsMoves | plantando_arvores/otimizador.py:40-81 | on unary selections, the pass only moves nodes: the labels stay the same |
| Optimizer.PushChildren | plantando_arvores/otimizador.py:44 | the children are processed first, keeping the label and the number of children |
| Optimizer.Swapped | plantando_arvores/otimizador.py:56-59 | the swap keeps the size and the labels |
| Optimizer.SwappedUnary | plantando_arvores/otimizador.py:56-59 | the swap keeps selections unary |
| Optimizer.SelectionUnderProjection | plantando_arvores/otimizador.py:53-59 | a selection over a projection moves beneath it |
| Optimizer.SelectionDropsRightOperand | plantando_arvores/otimizador.py:68-73 | a selection on the left operand's aliases returns the new selection over the left operand; the right operand is lost |
| Optimizer.ProductToJoin | plantando_arvores/otimizador.py:86-103 | the pass keeps the tree indexable |
| Optimizer.ProductToJoinIdempotent | plantando_arvores/otimizador.py:86-103 | running the pass twice is running it once |
| Optimizer.JoinLeaves | plantando_arvores/otimizador.py:89 | a node over two leaves is unchanged |
| Optimizer.ProductBecomesJoin | plantando_arvores/otimizador.py:91-102 | a selection over a product whose condition meets both sides becomes a join labelled `⨝ cond` |
| Optimizer.JoinOverProduct | plantando_arvores/otimizador.py:91-102 | the same after the children are processed |
| Optimizer.PushProjections | plantando_arvores/otimizador.py:108-124 | the projection pass returns the tree unchanged, at every node and for every set of needed attributes |
| Optimizer.Optimize | plantando_arvores/otimizador.py:129-133 | `otimizar` is the join pass after the selection pass (the projection pass changing nothing); its result can be indexed, and running the join pass on it again changes nothing |
| Optimizer.Attributes | plantando_arvores/teste_otimizador.py:8-10 | every attribute token contains a dot |
| DraftOptimizer.AttributesOfWord | plantando_arvores/teste_otimizador.py:8-10 | a dotted word is its own only attribute |
| DraftOptimizer.AttributesMissAliases | plantando_arvores/teste_otimizador.py:8-10 | attribute tokens never meet dot-free aliases |
| DraftOptimizer.DraftProductToJoin | plantando_arvores/teste_otimizador.py:62-75 | the root-only join pass keeps the tree indexable |
| DraftOptimizer.DraftNeverFuses | plantando_arvores/teste_otimizador.py:62-75 | with dot-free aliases, a selection over a product is never fused |
| DraftOptimizer.DraftOptimize | plantando_arvores/teste_otimizador.py:103-107 | `otimizar` of the draft is the root-only join pass after the selection pass that reads attribute tokens, and its result can be indexed |
| DraftOptimizer.DraftBinaryPush | plantando_arvores/teste_otimizador.py:34-47 | over two relations, a selection moves only when it has no attribute token, and then to the left operand, losing the right one |
| ChainOptimizer.TablesUsedOfAttribute | plantando_arvores/otimizacao_consultas.py:18-19 | `X.attr` with an upper-case `X` uses table `X` |
| ChainOptimizer.TablesUsedSpaced | plantando_arvores/otimizacao_consultas.py:18-19 | the tables of `a b` are those of `a` and those of `b` |
| ChainOptimizer.TablesUsed | plantando_arvores/otimizacao_consultas.py:18-19 | a condition without a dot uses no table |
| ChainOptimizer.TablesUsedLetters | plantando_arvores/otimizacao_consultas.py:18-19 | every table a condition uses is one upper-case letter written right before a dot in it |
| ChainOptimizer.FirstCaptureMeans | plantando_arvores/otimizacao_consultas.py:23 | the capture is the word after the first `[` that starts one |
| ChainOptimizer.CollectTables | plantando_arvores/otimizacao_consultas.py:21-28 | the recursive method collects the specified tables |
| ChainOptimizer.TablesOfLeaf | plantando_arvores/otimizacao_consultas.py:22-24 | `T[a]` has the single table `a` |
| ChainOptimizer.PushSelection | plantando_arvores/otimizacao_consultas.py:30-54 | the recursive method computes the specified push |
| ChainOptimizer.PushErases | plantando_arvores/otimizacao_consultas.py:30-54 | pushing only adds selection nodes: with them erased, the tree is unchanged |
| ChainOptimizer.PushKeepsTables | plantando_arvores/otimizacao_consultas.py:30-54 | pushing keeps the tables of the tree |
| ChainOptimizer.PushPlaces | plantando_arvores/otimizacao_consultas.py:34-54 | a covered condition ends up in the tree; an uncovered one leaves the tree unchanged |
| ChainOptimizer.PushDuplicates | plantando_arvores/otimizacao_consultas.py:49-54 | under a one-child node the condition is placed twice: above the node and above the leaf |
| ChainOptimizer.PushLeaf | plantando_arvores/otimizacao_consultas.py:49-54 | a covered leaf gets the selection on top |
| ChainOptimizer.PushOne | plantando_arvores/otimizacao_consultas.py:49-54 | a one-child node is wrapped, and the condition is pushed into its child |
| ChainOptimizer.Chain | plantando_arvores/otimizacao_consultas.py:64-69 | the chain walk stops at the first node that is not a one-child selection |
| ChainOptimizer.ChainErases | plantando_arvores/otimizacao_consultas.py:64-69 | `Erase(Chain(n).1) == Erase(n)`: with selections erased, what lies under the chain is the whole tree |
| ChainOptimizer.OptimizeTreeWalk | plantando_arvores/otimizacao_consultas.py:56-76 | the method computes the specified optimisation, or its endless-recursion error |
| ChainOptimizer.OptimizeTreeErases | plantando_arvores/otimizacao_consultas.py:56-76 | optimisation only adds, removes or moves selections |
| ChainOptimizer.PushAllErases | plantando_arvores/otimizacao_consultas.py:73-74 | pushing all the conditions only adds selections |
| ChainOptimizer.OptimizeDropsUncovered | plantando_arvores/otimizacao_consultas.py:34-35 | a selection whose tables the tree does not cover is dropped by optimisation |

## Left out

- The statement-level regular expressions of `parser.py` (lines 189-226) are not modelled.
  Their matched fragments are inputs (`StatementMatch`, `ClauseMatch`). The condition-part
  patterns of lines 93-125 are modelled (`SqlValidator.RecognizeComparison`).
- `process_sql_query`'s printing, the test harness of `parser.py`, and every `__main__` block
  are left out: they are I/O.
- Graphviz drawing is left out: `ArvoreDrawer`, `desenhar_arvore` and the image helpers are
  foreign-library calls and file output.
- The data-generation scripts and the UI are left out: they are I/O and randomness.
- `plantando_arvores/arvore.py` is not part of this model. Its node is taken as
  `QueryProcessing.Node(op, children)`, a value.
- The n-ary optimisers are modelled on values. The in-place updates of `filhos` and
  `operacao`, and any sharing of nodes between trees, are not captured; results are compared as
  trees.
- `encontrar_operacao_principal` (algebra_utils_clause.py:235-262) is left out. No other code
  calls it.
- Unicode classes are narrowed to Latin-1 where the source uses them:
  - `str.isalnum` is its Latin-1 part: the ASCII letters and digits, `ª ² ³ µ ¹ º ¼ ½ ¾`, and
    `À` to `ÿ` except `×` and `÷`; `\w` adds `_`. Letters and digits beyond Latin-1 are not
    counted;
  - `str.lower` lower-cases ASCII letters only;
  - `str.strip` and `\s` use the full `str.isspace` set, including the Unicode spaces and line
    separators.
- Python's recursion limit is not modelled.
- `BuildNode` allocates each node after its children; the source allocates it before. Nothing
  observable depends on the order.
- Optimizer.PushSelections: requires `Sound` (every node can be indexed as the pass indexes it).
  Trees that are not `Sound` are not modelled. On some of them the source raises `IndexError`
  (a selection or product with too few children). On others it does not: `processar("σ a")`
  builds the leaf `σ a`, and the passes return a leaf unchanged (`otimizador.py:41-42, 87-88`).
  `NaryTree.ShapedSound` shows that every tree `processar` builds whose leaves are relations is
  `Sound`. The same holds for `Optimizer.PushChildren`, `Optimizer.Swapped`,
  `Optimizer.ProductToJoin`, `Optimizer.PushProjections`, `Optimizer.Optimize`,
  `DraftOptimizer.DraftProductToJoin` and `DraftOptimizer.DraftOptimize`.
- SqlTranslator.Convert: requires `Translatable`, which every validated statement meets
  (`ParsedTranslatable`). Statements the validator would reject are not translated.
- AlgebraPushdown.ApplyCounts: the counting property is proved only for text without nested
  selections and for conditions without `𝛔`.
- AlgebraPushdown.PushDownCounts: restricted in the same way.
- AlgebraPushdown.PushDown: its selection count is promised only under the same restriction:
  the text under the selections taken off holds no further selection, and no condition holds a
  `𝛔`. Outside it, no count is promised.
- AlgebraPushdown.PushSelectsDown: it hands the operands' leftover selections back up, which is
  the corrected behaviour. The source's behaviour, which drops them, is
  `PushDownFormatted(s, Dropped)` (see Findings).
- AlgebraJoins.RemoveJoins: it resumes after each rewritten group, which is the corrected
  behaviour. The source's resume index is `Substitute(s, AsWritten)` (see Findings). What the
  rewrite means is proved for text that formats into a well-formed `Term`; on other text the
  method still computes `JoinsRemoved`, errors included, but no lemma describes the result.
- AlgebraJoins.TemplateToken: a `\g<…>` reference counts as numeric only when written in ASCII
  digits, as current Python versions require; a named reference is always an error, since the
  pattern has no named group.
- AlgebraUnnest.UnnestBalanced: balance is proved only when the condition of every selection
  the rewrite cuts out is balanced (`BalancedConditions`). The same premise is on `AlgebraUnnest.UnnestSettles` and on the balance clause of
  `AlgebraUnnest.UnnestSelects`.
- ChainOptimizer.OptimizeTreeWalk: the endless recursion of `otimizar_arvore` is the error
  `EndlessRecursion` rather than a stack overflow.

## Findings

| source | as written | input that shows it | evidently intended | confidence | as-written member | corrected member |
|---|---|---|---|---|---|---|
| novo_plantando_arvores/algebra_utils_clause.py:90-94 | after a group that is not a join operand, the scan resumes at `fim_esq`, an index into the text before the group was rewritten | `((A) ⨝[c] (B)) X ((a) ⨝[e] (b))`: the first rewrite shortens the text, the scan lands inside the second group, and its join stays | resume just after the rewritten group, so that every join is removed | not executed | AlgebraJoins.SkipsSecondJoin | AlgebraJoins.ProductOfJoins |
| parser.py:264-272 | each leaf is labelled with `table_details[table]['alias']`, and a repeated table overwrites that entry (line 56) | `SELECT c1.nome FROM cliente c1 INNER JOIN cliente c2 ON c1.idcliente = c2.idcliente` gives `cliente[c2] ⨝ cliente[c2]` | label each table instance with its own alias: `cliente[c1] ⨝ cliente[c2]` | not executed | SqlTranslator.SelfJoinAsWritten | SqlTranslator.SelfJoinCorrected |
| novo_plantando_arvores/algebra_utils_clause.py:412-413 | the selections an operand hands back are discarded (`novo_esq, _ = ...`) | `𝛔[Nome = 'Ana']((Cliente[C] X Pedido[P]))`: the condition has no alias, so it goes to the left relation, which hands it back, and it is lost | hand those selections on, so that they are re-applied at the top (lines 447-449) | not executed | AlgebraPushdown.DropsUnqualified | AlgebraPushdown.KeepsUnqualified |

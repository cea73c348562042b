# hephaestus, modelled in Dafny

hephaestus parses SQL into a tree of `AstNode`s and hands that tree to
Python as nested dicts and lists. This project models the parts of it that
decide what the tree looks like and how it is read back:

- **the parser** (`src/parser.rs`). It starts from a pest match tree that
  has already been matched: each pair has a rule tag, its text and its
  child pairs. `parse_value` removes comments and runs operator-precedence
  climbing with the `PREC_CLIMBER` table. `primary` maps one pair to a node
  through one arm per rule tag, and `infix` folds an operator into
  `AstNode::Expression`. The climber is written out as the outer and inner
  loops of precedence climbing (`Climber`). It is proved to build the one
  tree that the precedence table allows. The parser's own test trees are
  rebuilt as examples.
- **the keyword mappers and the node type** (`src/ast.rs`): `Sign`,
  `SelectMode`, `Interval`, `Union` and `Operation`, each with its
  `from_str`, plus `AstNode`.
- **the formatter** (`src/format.rs`): `FormatSql::format` over the older
  statement tree. It prints `SELECT`, the numeric columns and the named
  tables.
- **the Python walkers** (`hephaestus/utils.py`, `hephaestus/walk.py`).
  `iter_node_attributes` is a worklist loop over the dict/list tree.
  `iter_tables` and `iter_ctes` are built on top of it. `Visitor.walk` is
  a class whose method records the `visit_<type>` calls it makes.
- **the field-type classifier** (`dict_derive/src/utils.rs`):
  `which_field_type`, which tells a boxed, optional or optional-boxed
  struct field apart from any other field.

Every way the Rust code panics is modelled as one outcome, `Panic`. This
covers an `unwrap` of `None`, an index past the end, `unreachable!`, a
keyword mapper given an unknown word, and `unimplemented!`. A Python
`KeyError` or `TypeError` is modelled the same way. Functions return
`Outcome` or `Option` instead of requiring well-formed input. The formatter
is the exception: there, `unimplemented!` arms are excluded by a
precondition.

`NamedColumn.alias` is modelled as an optional string, following the
parser (`src/parser.rs:56`) and its tests. The node type declares it as a
plain string at `src/ast.rs:200`.

## Model

| member | source | states |
|---|---|---|
| Keywords.UpperLetters | src/ast.rs:25 | upper-casing leaves no lower-case ASCII letter, turns each one into its own capital in place and keeps every other character; a string is its own upper-cased form exactly when it has no lower-case letter |
| Keywords.UpperIdempotent | src/ast.rs:25 | upper-casing twice is upper-casing once |
| Keywords.SignFromStr | src/ast.rs:7-14 | a sign that is found is spelled by the input exactly |
| Keywords.SignFromStrExactly | src/ast.rs:7-14 | only "+" and "-" are signs, each naming its own variant, with no case folding |
| Keywords.SelectModeFromStr | src/ast.rs:23-30 | a mode that is found is named by the upper-cased input |
| Keywords.SelectModeFromStrExactly | src/ast.rs:23-30 | a string gives a mode exactly when its upper-cased form is ALL or DISTINCT; anything else fails |
| Keywords.IntervalFromStr | src/ast.rs:43-54 | a period that is found is named by the upper-cased input |
| Keywords.IntervalFromStrExactly | src/ast.rs:43-54 | each of the six periods comes from exactly its own keyword, in any case |
| Keywords.SplitSpaces | src/ast.rs:69 | splitting at single spaces always gives at least one piece |
| Keywords.NonEmpty | src/ast.rs:70 | the empty pieces are filtered out |
| Keywords.UnionFromStr | src/ast.rs:65-79 | UnionAll exactly for the words UNION ALL or UNION; Intersect, Minus and Except exactly for their single word |
| Keywords.UnionIgnoresSpacing | src/ast.rs:66-77 | "union all" and "Union" give UnionAll with any number of spaces around and between the words |
| Keywords.UnionKeywordRoundTrip | src/ast.rs:65-79 | each set operator is read back from its own keyword |
| Keywords.OperationFromStr | src/ast.rs:124-142 | an operation that is found is spelled by the upper-cased input |
| Keywords.OperationFromStrExactly | src/ast.rs:124-142 | an operation comes from exactly its own symbol; any other input fails |
| Keywords.OperationSymbolsDistinct | src/ast.rs:127-139 | the thirteen symbols are pairwise distinct |
| Keywords.SelectModeCaseInsensitive | src/ast.rs:25 | a string and its upper-cased form give the same mode |
| Keywords.IntervalCaseInsensitive | src/ast.rs:45 | a string and its upper-cased form give the same period |
| Keywords.UnionCaseInsensitive | src/ast.rs:68 | a string and its upper-cased form give the same set operator |
| Keywords.OperationCaseInsensitive | src/ast.rs:126 | a string and its upper-cased form give the same operation |
| Pest.Size | src/parser.rs:37-41 | a pair is larger than all of its children together, so the recursion terminates |
| Pest.SizeAllBounds | src/parser.rs:37-41 | each pair of a run is no larger than the run |
| Pest.NonComment | src/parser.rs:38-41 | filtering out comments never makes a run larger |
| Pest.NonCommentKeeps | src/parser.rs:38-41 | the filtered run holds no comment, and it holds every pair of the input that is not a comment |
| Pest.WithRule | src/parser.rs:263-270 | the pairs with one tag: every one has that tag and every pair with that tag is kept |
| Pest.Find | src/parser.rs:150-156 | a found index is in range and its pair has one of the tags searched for |
| Pest.FindFirst | src/parser.rs:150-156 | the found index is the first with such a tag, and nothing is found only when no pair has one |
| Pest.NonCommentAppend | src/parser.rs:566-575 | filtering distributes over concatenation |
| Pest.NonCommentIdempotent | src/parser.rs:566-575 | filtering twice is filtering once |
| Pest.CommentInvisible | src/parser.rs:566-575 | removing a comment from anywhere in a run leaves the filtered run unchanged |
| Climber.Outer | src/parser.rs:10-34 | the outer loop returns a shape whose positions are below the new position, and it consumes an operator that binds at least the minimum |
| Climber.Inner | src/parser.rs:10-34 | the inner loop returns a shape whose positions are below the new position |
| Climber.Climb | src/parser.rs:566-575 | an empty run panics; a lone operand, or an operand followed by a non-operator, is a leaf; an operator with no operand after it panics |
| Climber.OuterCorrect | src/parser.rs:10-34 | on an alternating run, the outer loop succeeds and returns a tree over the next contiguous range; the tree is well nested and stops at an operator looser than the minimum |
| Climber.InnerCorrect | src/parser.rs:10-34 | on an alternating run, the inner loop succeeds and extends the right operand only with operators tighter than the current one |
| Climber.OuterUnfold | src/parser.rs:10-34 | one turn of the outer loop folds the operator over the left tree and the tree the inner loop returned |
| Climber.OuterFold | src/parser.rs:543-564 | folding an operator over two well-nested trees on adjacent ranges gives a well-nested tree on their union |
| Climber.ClimbCorrect | src/parser.rs:10-34 | on a run of operands separated by operators, the climber consumes every item in order and builds a tree that follows the precedence table |
| Climber.RootIsRightmostLoosest | src/parser.rs:10-34 | the root of a well-nested tree is the rightmost of the loosest operators of its range |
| Climber.NestedUnique | src/parser.rs:10-34 | two well-nested trees over the same range are equal |
| Climber.ClimbUnique | src/parser.rs:10-34 | the climber's tree is the only tree the precedence table allows |
| Climber.ClimbRoot | src/parser.rs:10-34 | the climber's root is the rightmost loosest operator |
| Climber.EqualPrecedenceNestsLeft | src/parser.rs:15-31 | operators that all share one precedence nest to the left |
| Climber.OneOperator | src/parser.rs:543-564 | `a op b` is one node |
| Climber.TwoOperators | src/parser.rs:10-34 | `a op1 b op2 c` nests `op2` under `op1` exactly when `op2` binds strictly tighter |
| Parser.Precs | src/parser.rs:10-34 | one precedence per item; an item is an operator (precedence above 0, at most 6) exactly when its rule is one of the thirteen that `infix` folds (parser.rs:543-563) |
| Parser.TextAt | src/parser.rs:56 | text of the i-th child, present exactly when that child exists |
| Parser.ParseEach | src/parser.rs:208-211 | climbing each pair on its own gives one node per pair |
| ParserProps.SingleIsPrimary | src/parser.rs:566-575 | climbing a single pair is `primary` of it; a lone comment leaves nothing to climb and panics |
| ParserProps.FirstOperandOnly | src/parser.rs:566-575 | when the second item is not an operator, the result is the first operand and the rest is never read |
| ParserProps.ParseEachElements | src/parser.rs:208-211 | a list succeeds exactly when every element does, with the elements' nodes in order |
| ParserProps.ParseEachIsPrimary | src/parser.rs:208-211 | a list with no comment is `primary` of each element, in order |
| ParserProps.ParseValueIgnoresComment | src/parser.rs:566-575 | a comment anywhere among the climbed pairs changes nothing |
| ParserProps.PrimaryIgnoresComment | src/parser.rs:37-41 | a comment among a pair's children changes nothing `primary` builds |
| ParserProps.CommentInListPanics | src/parser.rs:208-211 | a list read with `map(Pairs::single)` is not filtered, and a comment in it panics |
| ParserProps.WellNestedBelow | src/parser.rs:10-34 | a tree that follows the table only uses positions inside the run |
| ParserProps.ParseValueFollowsTable | src/parser.rs:543-575 | on operands separated by operators, `parse_value` builds the one tree the table allows |
| ParserProps.OneOperatorNode | src/parser.rs:543-564 | `a op b` gives `Expression(a, op, b)` |
| ParserProps.OneOperatorNest | src/parser.rs:543-575 | `a op b` climbs into one node |
| ParserProps.TwoOperatorsNest | src/parser.rs:10-34 | `a op1 b op2 c` climbs into the shape the table prescribes |
| ParserProps.TwoOperatorsNode | src/parser.rs:543-575 | `a op1 b op2 c` gives `a op1 (b op2 c)` when `op2` binds strictly tighter, `(a op1 b) op2 c` otherwise |
| ParserProps.BuildNode | src/parser.rs:543-564 | an operator node whose operands and operator map builds their `Expression` |
| ParserProps.FindHas | src/parser.rs:150-156 | searching for a tag finds exactly the first child with that tag |
| ParserProps.ListOfFacts | src/parser.rs:149-156 | an absent clause gives an empty list; a present one gives the children of its first pair, each climbed on its own, one node per child |
| ParserProps.OptionalFoundFacts | src/parser.rs:181-189 | an optional clause is present exactly when a child with its tag is, and it is that child's node |
| ParserProps.ModeOfFacts | src/parser.rs:157-164 | the mode defaults to ALL and is otherwise named by the first `select_mode` child |
| ParserProps.SelectDefaults | src/parser.rs:149-200 | with no clause child: no CTEs, mode ALL, no columns, no tables, no WHERE, no GROUP BY |
| ParserProps.SelectClausesByTag | src/parser.rs:149-200 | each SELECT part comes from the first child with its tag and takes its default when there is none: the CTE, column and table lists are that child's children climbed one by one, WHERE and GROUP BY are that child climbed, the mode is the keyword it names |
| ParserProps.CountNormalisesMode | src/parser.rs:395-410 | COUNT takes a leading select mode as its mode and the rest as columns, otherwise mode ALL and every argument a column; no argument is lost |
| ParserProps.AggregatesNormaliseMode | src/parser.rs:339-386 | MAX, MIN and SUM read an explicit mode only from exactly two arguments, otherwise mode ALL over the first argument; no arguments panics |
| ParserProps.CaseExpressionParts | src/parser.rs:253-281 | CASE has a scrutinee exactly when a `case_clause` child exists and an ELSE exactly when an `else_clause` child exists; its WHENs are the `when_clause` children in order |
| ParserProps.YearToMonthParts | src/parser.rs:88-108 | a year-to-month interval is all its children climbed together, with no target precision; its period is named by the second child; its precision is the children of the first precision child, each climbed on its own, or empty without one |
| ParserProps.YearToMonthConversion | src/parser.rs:99-106 | a year-to-month interval has a target unit exactly when an `interval_year` or `interval_month` child sits at index 2 or later, and the unit is the one the first such child names |
| ParserProps.DayToSecondConversion | src/parser.rs:109-144 | a day-to-second interval takes its target unit from the first child of its conversion and its target precision from the second; without a conversion it has neither |
| ParserProps.IsNullNegation | src/parser.rs:234-242 | IS NULL unless a `negate` child is present, then IS NOT NULL |
| ParserProps.UnknownFunctionFallback | src/parser.rs:444-453 | an unknown function keeps its name node and every argument in order; it fails only when one of these fails or the argument list is missing |
| ParserProps.UnknownFunctionName | src/parser.rs:444-453 | the name is the first child alone when the argument list follows it directly |
| ParserProps.NonCommentIdempotentOnClean | src/parser.rs:38-41 | filtering a run that has no comment changes nothing |
| ParserProps.GroupByHasNoHaving | src/parser.rs:208-211 | GROUP BY never has a HAVING; its groupings are its children, each climbed on its own, and it fails exactly when one of them does |
| ParserProps.WithClauseParts | src/parser.rs:475-498 | WITH never lists columns; its name is the first `identifier` child and its query the first `select_statement` child after that |
| ParserProps.WithClauseIndices | src/parser.rs:475-498 | returns the two children WITH reads and the node it builds from them |
| ParserProps.NamedColumnAlias | src/parser.rs:54-57 | a named column has an alias exactly when it has a second child, and the alias is that child's text |
| ParserExamples.OperandToken | src/parser.rs:60-87 | identifier, integer and boolean leaves map to their nodes with their own text |
| ParserExamples.OperatorToken | src/parser.rs:543-564 | an operator leaf maps to the operation it spells |
| ParserExamples.ClimbedArm | src/parser.rs:204-228 | an `expression` or `where_clause` pair is its children climbed |
| ParserExamples.FiveItems | src/parser.rs:543-575 | five operand and operator pairs climb to the tree the table prescribes |
| ParserExamples.EqualityAboveSubtraction | src/parser.rs:1234-1248 | `a = b - c` gives Equal at the root with Subtract on the right |
| ParserExamples.WhereAndAboveEquality | src/parser.rs:2437-2451 | `WHERE TRUE AND a = 1` gives And(TRUE, Equal(a, 1)) |
| ParserExamples.CoalesceOfInteger | src/parser.rs:296-304 | `COALESCE(n)` of one integer literal is a coalesce of that literal |
| ParserExamples.ConcatGroupsLeft | src/parser.rs:1482-1500 | the concatenation of `COALESCE(1)`, `a` and `COALESCE(2)` groups to the left |
| ParserExamples.CommentInsideExpression | src/parser.rs:1088-1102 | a comment between `a` and `AND b` is dropped |
| ParserExamples.SelectOfColumns | src/parser.rs:149-200 | a SELECT with only a column list takes every other part's default |
| ParserExamples.SelectLiteral | src/parser.rs:2477-2491 | `SELECT 1` is one literal column with every other part empty |
| ParserExamples.CommentBeforeStatement | src/parser.rs:2922-2939 | a leading comment leaves `select 1` unchanged |
| Format.JoinSpace | src/format.rs:62-67 | joining nothing is empty, and a join starts with the first part |
| Format.SplitJoinSpace | src/format.rs:80-84 | splitting the joined text at single spaces gives back the parts when no part holds a space |
| Format.JoinSpaceEmpty | src/format.rs:62-67 | the joined text is empty exactly when there is nothing to join or one empty part |
| Format.JoinSpaceAppend | src/format.rs:62-67 | joining two non-empty lists with one space between them is joining their concatenation |
| Format.FormatQuery | src/format.rs:59-75 | for a readable query (at least one column, no numeral holding a space, every table name made of at least one non-empty part without a space), splitting the output at single spaces gives back the numerals in order, then `FROM` and every part of every table name, with `FROM` present exactly when there is a table |
| Format.FormatSql | src/format.rs:32-57 | the output starts with "SELECT "; for a readable query, splitting it at single spaces gives back `SELECT`, the numerals, and `FROM` with the table-name parts when there is a table |
| Format.NoFromClause | src/format.rs:59-75 | no FROM is printed exactly when there is no table, or one table whose name is empty |
| Format.AliasNotPrinted | src/format.rs:131-138 | changing a table's alias never changes the output |
| Format.RenameNotPrinted | src/format.rs:99-103 | changing a column's rename never changes the output |
| Format.ColumnsReadBack | src/format.rs:77-88 | the numerals of a query without tables are read back by splitting the output at single spaces |
| Format.SelectOneFromDual | src/format.rs:32-75 | `select 1 from dual` prints as "SELECT 1 FROM dual" |
| NodeUtils.Size | hephaestus/utils.py:4-14 | every value has a positive size, so the worklist can shrink |
| NodeUtils.Values | hephaestus/utils.py:14 | the values of a dict's entries, in order |
| NodeUtils.VisibleSmaller | hephaestus/utils.py:14 | the visible values are no larger than all the values |
| NodeUtils.VisibleMembers | hephaestus/utils.py:14 | a value is queued from a dict exactly when an entry whose key does not start with `_` holds it |
| NodeUtils.ExpandShrinks | hephaestus/utils.py:11-14 | what is queued after taking a value is smaller than that value |
| NodeUtils.IterNodeAttributes | hephaestus/utils.py:4-14 | the worklist loop yields `Attrs` of the root |
| NodeUtils.Step | hephaestus/utils.py:7-14 | one turn: the taken dict is yielded and its children queued, and the remaining work shrinks |
| NodeUtils.AttrsAreDicts | hephaestus/utils.py:8-9 | only dicts are yielded |
| NodeUtils.AttrsAreReachableDicts | hephaestus/utils.py:4-14 | the yielded nodes are, as a multiset, exactly the dicts reachable through lists and visible entries |
| NodeUtils.HiddenNotExpanded | hephaestus/utils.py:14 | what sits under a key starting with `_` never affects what is yielded after the root |
| NodeUtils.VisibleSkipsHidden | hephaestus/utils.py:14 | an entry with a hidden key contributes nothing to the queue |
| NodeUtils.GetFinds | hephaestus/utils.py:19 | a lookup finds a value exactly when an entry has the key, and the value is held under it |
| NodeUtils.HasType | hephaestus/utils.py:19 | comparing `_type` raises exactly on a non-dict or a dict without `_type`, and is true exactly when `_type` is that string |
| NodeUtils.Iterate | hephaestus/utils.py:20 | iterating a list gives its items; only lists, dicts and strings can be iterated |
| NodeUtils.GatherStep | hephaestus/utils.py:17-27 | one turn of a generator: a node that raises ends the run, otherwise its items are yielded |
| NodeUtils.GatherAppend | hephaestus/utils.py:17-27 | splitting the nodes splits what is yielded; a raise in the first part ends the run |
| NodeUtils.GatherPanics | hephaestus/utils.py:17-27 | a generator raises exactly when one of its nodes does |
| NodeUtils.GatherNothing | hephaestus/utils.py:17-27 | nodes that yield nothing give nothing |
| NodeUtils.IterTables | hephaestus/utils.py:17-21 | `iter_tables` yields each node's table-name parts in `iter_node_attributes` order |
| NodeUtils.PerNodeYields | hephaestus/utils.py:17-27 | a table yields its name parts and any other node nothing; a CTE yields exactly its identifier |
| NodeUtils.IterCtes | hephaestus/utils.py:24-27 | `iter_ctes` yields each CTE's identifier in `iter_node_attributes` order |
| NodeUtils.TableNameParts | tests/utils_test.py:22-36 | a table named `dual` yields "dual" |
| NodeUtils.TableNameCharacters | hephaestus/utils.py:20-21 | a table name held as a bare string would be yielded one character at a time |
| NodeUtils.SelectOneOrder | tests/utils_test.py:6-19 | the tree of `SELECT 1` yields SelectStatement, QuerySetExpression, SelectAll, ListResultColumn, ExprResultColumn, NumericLiteral, in that order |
| Walk.ValuesOf | hephaestus/walk.py:12 | the values of the worklist items, in order |
| Walk.Containers | hephaestus/walk.py:23-31 | only dicts and lists are kept |
| Walk.PushedAreContainers | hephaestus/walk.py:23-27 | from a dict, the visible entries holding a dict or a list are pushed |
| Walk.TaggedAreDicts | hephaestus/walk.py:29-31 | from a list without nested lists, its dicts are pushed |
| Walk.Visitor.Walk | hephaestus/walk.py:8-31 | the recorded calls are those the walk's trace prescribes, and the result says whether it raised |
| Walk.TraceRaises | hephaestus/walk.py:15 | a dict without `_type` ends the walk with what was visited so far |
| Walk.TraceUnfold | hephaestus/walk.py:12-31 | one turn: the front item is visited when handled, its children are queued, and the worklist shrinks |
| Walk.RootFirst | hephaestus/walk.py:10 | the root is visited first, under no key, when its type is handled |
| Walk.OnlyHandledVisited | hephaestus/walk.py:13-20 | every call is on a dict whose type the visitor handles |
| Walk.AttrsIgnoreScalars | hephaestus/utils.py:7-14 | scalars on the worklist change nothing that is yielded |
| Walk.WalkAgreesWithIterNodeAttributes | hephaestus/walk.py:8-31 | on a tree where every dict has a type and no list holds a list, the walk never raises and visits exactly the handled nodes `iter_node_attributes` yields, in the same order |
| Walk.VisitsSelectStatement | tests/walk_test.py:4-14 | `visit_SelectStatement` is called on the statement at the root |
| FieldType.WhichFieldType | dict_derive/src/utils.rs:12-53 | IsBox exactly for a plain path with a `Box` segment; IsOptionBox, IsOption, IsAny and the panic each exactly on the inputs named in its clause |
| FieldType.OptionOfNonBox | dict_derive/src/utils.rs:32-42 | `Option<T>` is IsOption for every T that classifies, without panicking, as something other than a box |
| FieldType.BoxedExamples | dict_derive/src/utils.rs:23-42 | `Option<Box<T>>` is IsOptionBox, and `Box<Option<T>>` is IsBox |
| FieldType.NestedOption | dict_derive/src/utils.rs:35-42 | `Option<Option<Box<T>>>` is IsOption: only one level is looked through |
| FieldType.QualifiedOption | dict_derive/src/utils.rs:26-44 | `std::option::Option<u16>` is IsAny, because the arguments are read from the first segment |
| FieldType.TwoArguments | dict_derive/src/utils.rs:27-30 | `Option` with two generic arguments panics |

## Left out

- Upper: upper-cases ASCII letters only. Rust's `to_uppercase` also maps some non-ASCII letters onto ASCII ones: the dotless `ı` (U+0131) becomes `I` and the long `ſ` (U+017F) becomes `S`. So `dıstınct` parses as DISTINCT, `ſecond` as SECOND and `unıon` as UNION ALL in the source, while the model's keyword lookups (SelectModeFromStrExactly, IntervalFromStrExactly, UnionFromStr) reject them.
- Every panic, `unreachable!`, `unimplemented!`, `KeyError` and `TypeError` is the one outcome `Panic`; the messages are not modelled.
- The pest grammar and lexer, and the `parse_tokens`/`parse` entry points (`src/parser.rs:577-585`): the model starts from a matched pair tree, and a syntax error (an `unwrap` panic in `parse_tokens`) is outside it.
- The pest `PrecClimber` library is not part of this model; `Climber` is the precedence-climbing algorithm written from the table.
- `SelectUnionStatement` is in the node type but no arm of `primary` builds it.
- The pyo3 conversions (`src/ast_py.rs`, `dict_derive/src/into.rs`, `dict_derive/src/lib.rs`), the Python module entry point (`src/lib.rs`), `build.rs` and `setup.py` are not part of this model.
- FormatQuery: the read-back of the output into its words is promised only for readable queries; a space inside a numeral or a name part, an empty name part or a name with no part makes the split output ambiguous, and for those only the exact text is stated.
- Format: the fields the formatter never reads (the statement's CTEs, order and limit; the query's mode, WHERE and GROUP BY) are left out of the statement tree, and `FormatOptions` is not modelled.
- Python generators are modelled as the list of what they yield; a raise part-way is `Panic` in place of the items yielded before it.
- HasType: a `_type` that is not a string compares unequal to the type name, as it does in Python.
- Visitor.Walk: `getattr` dispatch is modelled as the set of handled type names, and each call as a recorded `(attr, node)` item; the `parse(self.sql)` call is a parameter, the parsed root.
- Visitor.Walk: a node whose `_type` is not a string is never dispatched in the model. Python would format it into the method name (`_type: 1` looks up `visit_1`, `None` looks up `visit_None`). The trees built from the parser's AST always carry a string `_type`.
- Walk.WalkAgreesWithIterNodeAttributes: holds only for trees where every dict has a `_type` and no list directly holds a list; the walk drops nested lists that `iter_node_attributes` expands.
- ParserExamples.ConcatGroupsLeft: the rule tag of the argument-list pair inside `COALESCE` is not named in the code, and any tag is accepted.
- NodeUtils.SelectOneOrder: the order of the entries of each dict of `SELECT 1` follows the field order of the conversion to Python, which is not part of this model.
- WhichFieldType: generic arguments other than types are one constructor, and the panic messages are not modelled.

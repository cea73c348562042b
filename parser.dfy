/** From a pest match tree to `AstNode`: `primary` maps one pair by its
    rule, `infix` folds an operator between two operands, and `parse_value`
    runs the precedence climber over a run of sibling pairs with comments
    removed.

    Every way the Rust code can panic (an `unwrap` of `None`, an index past
    the end of a vector, `unreachable!`, a keyword mapper given an unknown
    word, the climber given nothing to climb or an operator with no operand
    after it) is the single outcome `Panic`. Because nothing else is
    observable, the order in which the Rust code evaluates the fields of a
    node does not matter.

    Every arm reads the children of its pair with comments removed
    (`kids`); an arm that reads the children of one of those children uses
    them as they are, comments included. */
module Parser {
  import opened Wrappers
  import opened Pest
  import opened Ast
  import K = Keywords
  import C = Climber

  /** The `PREC_CLIMBER` table: binding strength of each infix operator,
      loosest first; 0 for a rule that is not an operator. */
  function Prec(rule: Rule): nat {
    match rule
    case operation_or => 1
    case operation_and => 2
    case operation_equal | operation_not_equal | operation_greater_or_equal
       | operation_greater_than | operation_less_or_equal | operation_less_than => 3
    case operation_add | operation_subtract => 4
    case operation_concat => 5
    case operation_multiply | operation_divide => 6
    case _ => 0
  }

  /** The rules `infix` folds into an `Expression`; any other rule there is
      `unreachable!`. */
  const InfixRules: set<Rule> := {
    operation_add, operation_subtract, operation_multiply, operation_divide, operation_concat,
    operation_or, operation_and, operation_equal, operation_not_equal,
    operation_greater_or_equal, operation_greater_than, operation_less_than, operation_less_or_equal}

  /** The precedence of each item: the climber treats an item as an
      operator exactly when `infix` can fold it, on one of six levels. */
  function Precs(items: seq<Pair>): (r: seq<nat>)
    ensures |r| == |items| && forall i :: 0 <= i < |items| ==> r[i] == Prec(items[i].rule)
    ensures forall i :: 0 <= i < |items| ==> (r[i] > 0 <==> items[i].rule in InfixRules) && r[i] <= 6
  {
    seq(|items|, i requires 0 <= i < |items| => Prec(items[i].rule))
  }

  /** Text of the child at `i`, if there is one (`nth(i).map(as_str)`). */
  function TextAt(kids: seq<Pair>, i: nat): (r: Option<string>)
    ensures r.Some? <==> i < |kids|
    ensures r.Some? ==> r.value == kids[i].text
  {
    if i < |kids| then Some(kids[i].text) else None
  }

  /** The select mode named by the first `select_mode` child, `All` if none. */
  function ModeOf(kids: seq<Pair>): Outcome<K.SelectMode> {
    match Find(kids, {select_mode})
    case None => Ok(K.All)
    case Some(i) => Unwrap(K.SelectModeFromStr(kids[i].text))
  }

  /** Target unit of a year-to-month interval: the first `interval_year` or
      `interval_month` child after the first two. */
  function YearMonthTarget(kids: seq<Pair>): Outcome<Option<K.Interval>>
    requires |kids| >= 2
  {
    match Find(kids[2..], {interval_year, interval_month})
    case None => Ok(None)
    case Some(j) =>
      var unit :- Unwrap(K.IntervalFromStr(kids[2 + j].text));
      Ok(Some(unit))
  }

  // ---------------------------------------------------------------------
  // parse_value, infix and primary
  // ---------------------------------------------------------------------

  /** `parse_value`: drop comments, climb, build. */
  function ParseValue(ps: seq<Pair>): Outcome<AstNode>
    decreases SizeAll(ps), 6
  {
    ClimbItems(NonComment(ps))
  }

  /** The climber over a run of pairs that holds no comment. */
  function ClimbItems(items: seq<Pair>): Outcome<AstNode>
    decreases SizeAll(items), 5
  {
    match C.Climb(Precs(items))
    case Panic => Panic
    case Ok((shape, q)) =>
      C.BelowMono(shape, q, |items|);
      Build(items, shape)
  }

  /** `map(Pairs::single).map(parse_value).collect()`: each pair climbed on
      its own, comments not removed first. */
  function ParseEach(ps: seq<Pair>): (r: Outcome<seq<AstNode>>)
    ensures r.Ok? ==> |r.value| == |ps|
    decreases SizeAll(ps), 7, |ps|
  {
    if ps == [] then Ok([])
    else
      SizeAllSingle(ps[0]);
      var x :- ParseValue([ps[0]]);
      var xs :- ParseEach(ps[1..]);
      Ok([x] + xs)
  }

  /** The tree the climber chose, with `primary` at the operands and `infix`
      at the operators. */
  function Build(items: seq<Pair>, shape: C.Shape): Outcome<AstNode>
    requires C.Below(shape, |items|)
    decreases SizeAll(items), 4, shape
  {
    match shape
    case Leaf(i) =>
      SizeAllBounds(items, i);
      Primary(items[i])
    case Node(l, o, r) =>
      var left :- Build(items, l);
      var op :- Unwrap(K.OperationFromStr(items[o].text));
      var right :- Build(items, r);
      Ok(Expression(left, op, right))
  }

  /** `primary`: the arm for the pair's rule, given its children without
      comments. */
  function Primary(p: Pair): Outcome<AstNode>
    decreases Size(p), 3
  {
    Arm(p.rule, p.text, NonComment(p.inner))
  }

  function Arm(rule: Rule, text: string, kids: seq<Pair>): Outcome<AstNode>
    decreases SizeAll(kids) + 1, 2
  {
    match rule
    // columns
    case all_columns => Ok(AllColumns)
    case column =>
      var e :- ParseValue(kids);
      Ok(Column(e))
    case all_columns_from =>
      var e :- ParseValue(kids);
      Ok(AllColumnsFrom(e))
    case named_column => NamedColumnArm(kids)
    // identifiers
    case identifier => Ok(Identifier(text))
    case qualified_identifier =>
      var parts :- ParseEach(kids);
      Ok(QualifiedIdentifier(parts))
    // literals
    case integer_literal => Ok(IntegerLiteral(text))
    case decimal_literal => Ok(DecimalLiteral(text))
    case float_literal => Ok(FloatLiteral(text))
    case string_literal => if kids == [] then Panic else Ok(StringLiteral(kids[0].text))
    case boolean_literal => Ok(BooleanLiteral(text))
    case interval_year_to_month => IntervalYearToMonth(kids)
    case interval_day_to_second => IntervalDayToSecond(kids)
    // select statement
    case select_statement => SelectStatementArm(kids)
    case select_mode =>
      var mode :- Unwrap(K.SelectModeFromStr(text));
      Ok(SelectMode(mode))
    case where_clause => ParseValue(kids)
    case group_by => GroupByArm(kids)
    // tables
    case named_table_expression =>
      var name :- ParseValue(kids);
      Ok(NamedTableExpression(name, TextAt(kids, 1)))
    // expressions
    case signed_expression => SignedExpressionArm(kids)
    case expression => ParseValue(kids)
    case is_null_expression => IsNullArm(kids)
    case case_clause => ParseValue(kids)
    case when_clause =>
      var two :- FirstTwo(kids);
      Ok(WhenClause(two.0, two.1))
    case else_clause => ParseValue(kids)
    case case_expression => CaseExpressionArm(kids)
    // join constraints
    case join_constraint_on =>
      var e :- ParseValue(kids);
      Ok(JoinConstraintOn(e))
    case join_constraint_using =>
      var cols :- ParseEach(kids);
      Ok(JoinConstraintUsing(cols))
    // functions
    case coalesce_function =>
      var exprs :- FirstChildList(kids);
      Ok(CoalesceFunction(exprs))
    case replace_function =>
      var args :- StringArgs(kids);
      Ok(ReplaceFunction(args.0, args.1, args.2))
    case substring_function =>
      var args :- StringArgs(kids);
      Ok(SubstringFunction(args.0, args.1, args.2))
    case to_date_function =>
      var s :- ParseValue(kids);
      var format :- OptionalNth(kids, 1);
      Ok(ToDateFunction(s, format))
    case right_function =>
      var two :- FirstTwo(kids);
      Ok(RightFunction(two.0, two.1))
    case max_function =>
      var me :- ModeAndExpr(kids);
      Ok(MaxFunction(me.0, me.1))
    case min_function =>
      var me :- ModeAndExpr(kids);
      Ok(MinFunction(me.0, me.1))
    case sum_function =>
      var me :- ModeAndExpr(kids);
      Ok(SumFunction(me.0, me.1))
    case power_function =>
      var two :- FirstTwo(kids);
      Ok(PowerFunction(two.0, two.1))
    case count_function => CountArm(kids)
    case concat_function =>
      var exprs :- FirstChildList(kids);
      Ok(ConcatFunction(exprs))
    case cast_function =>
      var two :- FirstTwo(kids);
      Ok(CastFunction(two.0, two.1))
    case date_trunc_function =>
      var two :- FirstTwo(kids);
      Ok(DateTruncFunction(two.0, two.1))
    case months_between_function =>
      var two :- FirstTwo(kids);
      Ok(MonthsBetweenFunction(two.0, two.1))
    case unknown_function => UnknownFunctionArm(kids)
    // joins
    case join_clause => JoinClauseArm(kids)
    case inner_join_type => Ok(InnerJoin)
    case left_outer_join_type => Ok(LeftOuterJoin)
    case right_outer_join_type => Ok(RightOuterJoin)
    case full_outer_join_type => Ok(FullOuterJoin)
    // with clause
    case with_clause => WithClauseArm(kids)
    // data types
    case boolean_type => Ok(BooleanType)
    case char_type =>
      var n :- ParseValue(kids);
      Ok(CharType(n))
    case varchar_type =>
      var n :- ParseValue(kids);
      Ok(VarcharType(n))
    case date_type => Ok(DateType)
    case double_type => Ok(DoubleType)
    case timestamp_type => Ok(TimestampType)
    case local_timestamp_type => Ok(LocalTimestampType)
    case decimal_type =>
      var two :- FirstTwo(kids);
      Ok(DecimalType(two.0, two.1))
    // comment
    case COMMENT => Ok(Comment(if kids == [] then "" else kids[0].text))
    // every other rule, operators included, is unreachable!
    case _ => Panic
  }

  // ---------------------------------------------------------------------
  // Arms with several parts
  // ---------------------------------------------------------------------

  function IntervalYearToMonth(kids: seq<Pair>): Outcome<AstNode>
    decreases SizeAll(kids) + 1, 1
  {
    var interval :- ParseValue(kids);
    if |kids| < 2 then Panic
    else
      var period :- Unwrap(K.IntervalFromStr(kids[1].text));
      var precision :- ListOf(kids, {interval_precision, interval_precision_with_fractional});
      var target :- YearMonthTarget(kids);
      Ok(IntervalLiteral(interval, period, precision, target, None))
  }

  function IntervalDayToSecond(kids: seq<Pair>): Outcome<AstNode>
    decreases SizeAll(kids) + 1, 1
  {
    var interval :- ParseValue(kids);
    if |kids| < 2 then Panic
    else
      var period :- Unwrap(K.IntervalFromStr(kids[1].text));
      var precision :- ListOf(kids, {interval_precision, interval_precision_with_fractional});
      match Find(kids, {interval_day_conversion})
      case None => Ok(IntervalLiteral(interval, period, precision, None, None))
      case Some(i) =>
        SizeAllBounds(kids, i);
        var conversion := kids[i].inner;
        if conversion == [] then Panic
        else
          var target :- Unwrap(K.IntervalFromStr(conversion[0].text));
          var targetPrecision :- OptionalNth(conversion, 1);
          Ok(IntervalLiteral(interval, period, precision, Some(target), targetPrecision))
  }

  function SelectStatementArm(kids: seq<Pair>): Outcome<AstNode>
    decreases SizeAll(kids) + 1, 1
  {
    var common :- ListOf(kids, {ctes});
    var mode :- ModeOf(kids);
    var cols :- ListOf(kids, {columns});
    var tables :- ListOf(kids, {table_expressions});
    var whereExpr :- OptionalFound(kids, {where_clause});
    var groupBy :- OptionalFound(kids, {group_by});
    Ok(SelectStatement(common, mode, cols, tables, whereExpr, groupBy))
  }

  function CaseExpressionArm(kids: seq<Pair>): Outcome<AstNode>
    decreases SizeAll(kids) + 1, 1
  {
    var scrutinee :- OptionalFound(kids, {case_clause});
    var whens :- ParseEach(WithRule(kids, when_clause));
    var otherwise :- OptionalFound(kids, {else_clause});
    Ok(CaseExpression(scrutinee, whens, otherwise))
  }

  /** REPLACE and SUBSTRING: the first operand climbed from all children,
      the second from the children of the second child, the third child
      optional. */
  function StringArgs(kids: seq<Pair>): Outcome<(AstNode, AstNode, Option<AstNode>)>
    decreases SizeAll(kids) + 1, 1
  {
    var s :- ParseValue(kids);
    if |kids| < 2 then Panic
    else
      SizeAllBounds(kids, 1);
      var second :- ParseValue(kids[1].inner);
      var third :- OptionalNth(kids, 2);
      Ok((s, second, third))
  }

  function NamedColumnArm(kids: seq<Pair>): Outcome<AstNode>
    decreases SizeAll(kids) + 1, 0
  {
    var e :- ParseValue(kids);
    Ok(NamedColumn(e, TextAt(kids, 1)))
  }

  function GroupByArm(kids: seq<Pair>): Outcome<AstNode>
    decreases SizeAll(kids) + 1, 0
  {
    var groupings :- ParseEach(kids);
    Ok(GroupBy(groupings, None))
  }

  /** IS NULL, or IS NOT NULL when a `negate` child is present. */
  function IsNullArm(kids: seq<Pair>): Outcome<AstNode>
    decreases SizeAll(kids) + 1, 0
  {
    var e :- ParseValue(kids);
    Ok(IsNullExpression(e, Find(kids, {negate}).None?))
  }

  function SignedExpressionArm(kids: seq<Pair>): Outcome<AstNode>
    decreases SizeAll(kids) + 1, 0
  {
    if |kids| < 2 then Panic
    else
      var sign :- Unwrap(K.SignFromStr(kids[0].text));
      SizeAllBounds(kids, 1);
      var e :- ParseValue(kids[1].inner);
      Ok(SignedExpression(sign, e))
  }

  function CountArm(kids: seq<Pair>): Outcome<AstNode>
    decreases SizeAll(kids) + 1, 0
  {
    var nodes :- ParseEach(kids);
    if |nodes| > 0 && nodes[0].SelectMode? then Ok(CountFunction(nodes[0], nodes[1..]))
    else Ok(CountFunction(SelectMode(K.All), nodes))
  }

  /** MAX, MIN and SUM: an explicit mode only when there are exactly two
      arguments. */
  function ModeAndExpr(kids: seq<Pair>): Outcome<(AstNode, AstNode)>
    decreases SizeAll(kids) + 1, 0
  {
    var nodes :- ParseEach(kids);
    if |nodes| == 2 then Ok((nodes[0], nodes[1]))
    else if |nodes| == 0 then Panic
    else Ok((SelectMode(K.All), nodes[0]))
  }

  function UnknownFunctionArm(kids: seq<Pair>): Outcome<AstNode>
    decreases SizeAll(kids) + 1, 0
  {
    var name :- ParseValue(kids);
    if |kids| < 2 then Panic
    else
      SizeAllBounds(kids, 1);
      var args :- ParseEach(kids[1].inner);
      Ok(UnknownFunction(name, args))
  }

  function JoinClauseArm(kids: seq<Pair>): Outcome<AstNode>
    decreases SizeAll(kids) + 1, 0
  {
    var nodes :- ParseEach(kids);
    if |nodes| < 3 then Panic
    else Ok(JoinClause(nodes[0], nodes[1], nodes[2]))
  }

  /** The first `identifier` child names the table; the query is the first
      `select_statement` child after it. */
  function WithClauseArm(kids: seq<Pair>): Outcome<AstNode>
    decreases SizeAll(kids) + 1, 0
  {
    match Find(kids, {identifier})
    case None => Panic
    case Some(i) =>
      match Find(kids[i + 1..], {select_statement})
      case None => Panic
      case Some(j) =>
        SizeAllBounds(kids, i);
        SizeAllBounds(kids, i + 1 + j);
        SizeAllSingle(kids[i]);
        SizeAllSingle(kids[i + 1 + j]);
        var name :- ParseValue([kids[i]]);
        var query :- ParseValue([kids[i + 1 + j]]);
        Ok(WithClause(name, [], query))
  }

  // ---------------------------------------------------------------------
  // Shared pieces of arms
  // ---------------------------------------------------------------------

  /** The first two children, each climbed on its own. */
  function FirstTwo(kids: seq<Pair>): Outcome<(AstNode, AstNode)>
    decreases SizeAll(kids) + 1, 0
  {
    var nodes :- ParseEach(kids);
    if |nodes| < 2 then Panic else Ok((nodes[0], nodes[1]))
  }

  /** The children of the first child, each climbed on its own. */
  function FirstChildList(kids: seq<Pair>): Outcome<seq<AstNode>>
    decreases SizeAll(kids) + 1, 0
  {
    if kids == [] then Panic
    else
      SizeAllBounds(kids, 0);
      ParseEach(kids[0].inner)
  }

  /** The children of the first child matched by one of `rules`, each
      climbed on its own; empty when there is no such child. */
  function ListOf(kids: seq<Pair>, rules: set<Rule>): Outcome<seq<AstNode>>
    decreases SizeAll(kids) + 1, 0
  {
    match Find(kids, rules)
    case None => Ok([])
    case Some(i) =>
      SizeAllBounds(kids, i);
      ParseEach(kids[i].inner)
  }

  /** The first child matched by one of `rules`, climbed on its own. */
  function OptionalFound(kids: seq<Pair>, rules: set<Rule>): Outcome<Option<AstNode>>
    decreases SizeAll(kids) + 1, 0
  {
    match Find(kids, rules)
    case None => Ok(None)
    case Some(i) =>
      SizeAllBounds(kids, i);
      SizeAllSingle(kids[i]);
      var x :- ParseValue([kids[i]]);
      Ok(Some(x))
  }

  /** The child at `i`, if there is one, climbed on its own. */
  function OptionalNth(kids: seq<Pair>, i: nat): Outcome<Option<AstNode>>
    decreases SizeAll(kids) + 1, 0
  {
    if i < |kids| then
      SizeAllBounds(kids, i);
      SizeAllSingle(kids[i]);
      var x :- ParseValue([kids[i]]);
      Ok(Some(x))
    else Ok(None)
  }
}

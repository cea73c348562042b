/** Properties of the parser: how `parse_value` treats single pairs and
    comments, that operators bind by the precedence table, and what the
    arms with defaults and normalisation produce. */
module ParserProps {
  import opened Wrappers
  import opened Pest
  import opened Ast
  import K = Keywords
  import C = Climber
  import opened Parser

  // ---------------------------------------------------------------------
  // parse_value on one pair and on lists
  // ---------------------------------------------------------------------

  /** Climbing a single pair is `primary` of it, except that a lone comment
      leaves nothing to climb. */
  lemma {:induction false} SingleIsPrimary(p: Pair)
    ensures ParseValue([p]) == if p.rule == COMMENT then Panic else Primary(p)
  {
    assert [p][1..] == [];
    if p.rule != COMMENT {
      assert NonComment([p]) == [p];
      assert Precs([p]) == [Prec(p.rule)];
      assert ParseValue([p]) == ClimbItems([p]);
    } else {
      assert NonComment([p]) == [];
    }
  }

  /** A run whose second item is not an operator is its first operand; the
      rest is never read. */
  lemma {:induction false} FirstOperandOnly(ps: seq<Pair>)
    requires |NonComment(ps)| >= 1
    requires |NonComment(ps)| == 1 || Prec(NonComment(ps)[1].rule) == 0
    ensures ParseValue(ps) == Primary(NonComment(ps)[0])
  {
    var items := NonComment(ps);
    assert Precs(items)[0] == Prec(items[0].rule);
    assert |items| > 1 ==> Precs(items)[1] == 0;
    assert C.Climb(Precs(items)) == Ok((C.Leaf(0), 1));
    assert ParseValue(ps) == ClimbItems(items) == Build(items, C.Leaf(0));
  }

  /** Climbing each pair of a list on its own succeeds exactly when every
      pair succeeds, and keeps their results in order. */
  lemma {:induction false} ParseEachElements(ps: seq<Pair>)
    ensures ParseEach(ps).Ok? <==> forall i :: 0 <= i < |ps| ==> ParseValue([ps[i]]).Ok?
    ensures ParseEach(ps).Ok? ==>
      forall i :: 0 <= i < |ps| ==> ParseEach(ps).value[i] == ParseValue([ps[i]]).value
  {
    if ps != [] {
      var head, tail := ParseValue([ps[0]]), ParseEach(ps[1..]);
      ParseEachElements(ps[1..]);
      assert ParseEach(ps) ==
        if head.Panic? || tail.Panic? then Panic else Ok([head.value] + tail.value);
      forall i | 1 <= i < |ps|
        ensures ps[i] == ps[1..][i - 1]
      {
      }
    }
  }

  /** A list whose pairs are not comments is `primary` of each pair, in order. */
  lemma {:induction false} ParseEachIsPrimary(ps: seq<Pair>)
    requires forall i :: 0 <= i < |ps| ==> ps[i].rule != COMMENT
    ensures ParseEach(ps).Ok? <==> forall i :: 0 <= i < |ps| ==> Primary(ps[i]).Ok?
    ensures ParseEach(ps).Ok? ==>
      forall i :: 0 <= i < |ps| ==> Ok(ParseEach(ps).value[i]) == Primary(ps[i])
  {
    ParseEachElements(ps);
    forall i | 0 <= i < |ps|
      ensures ParseValue([ps[i]]) == Primary(ps[i])
    {
      SingleIsPrimary(ps[i]);
    }
  }

  // ---------------------------------------------------------------------
  // Comments
  // ---------------------------------------------------------------------

  /** A comment among the pairs given to `parse_value` changes nothing. */
  lemma {:induction false} ParseValueIgnoresComment(a: seq<Pair>, c: Pair, b: seq<Pair>)
    requires c.rule == COMMENT
    ensures ParseValue(a + [c] + b) == ParseValue(a + b)
  {
    CommentInvisible(a, c, b);
  }

  /** A comment among the children of a pair changes nothing `primary`
      builds from it. */
  lemma {:induction false} PrimaryIgnoresComment(rule: Rule, text: string, a: seq<Pair>, c: Pair, b: seq<Pair>)
    requires c.rule == COMMENT
    ensures Primary(Pair(rule, text, a + [c] + b)) == Primary(Pair(rule, text, a + b))
  {
    CommentInvisible(a, c, b);
  }

  /** Lists read from the children of a child are not filtered: a comment
      there is climbed on its own, which leaves nothing to climb. */
  lemma {:induction false} CommentInListPanics(ps: seq<Pair>, i: nat)
    requires i < |ps| && ps[i].rule == COMMENT
    ensures ParseEach(ps).Panic?
  {
    ParseEachElements(ps);
    SingleIsPrimary(ps[i]);
  }

  // ---------------------------------------------------------------------
  // Operators bind by the precedence table
  // ---------------------------------------------------------------------

  lemma {:induction false} WellNestedBelow(prec: seq<nat>, s: C.Shape)
    requires C.WellNested(prec, s)
    ensures C.Below(s, |prec|)
  {
    if s.Node? {
      WellNestedBelow(prec, s.left);
      WellNestedBelow(prec, s.right);
    }
  }

  /** On a run of operands separated by operators, `parse_value` builds the
      one tree in which every operator's left operand binds at least as
      tightly and its right operand strictly more tightly. */
  lemma {:induction false} ParseValueFollowsTable(ps: seq<Pair>, shape: C.Shape)
    requires C.Alternating(Precs(NonComment(ps)))
    requires C.WellNested(Precs(NonComment(ps)), shape)
    requires C.InOrder(shape) == C.Range(0, |NonComment(ps)|)
    ensures C.Below(shape, |NonComment(ps)|)
    ensures ParseValue(ps) == Build(NonComment(ps), shape)
  {
    var items := NonComment(ps);
    WellNestedBelow(Precs(items), shape);
    C.ClimbUnique(Precs(items), shape);
  }

  /** `a op b`: one operator between two operands. */
  lemma {:induction false} OneOperatorNode(items: seq<Pair>, a: AstNode, op: K.Operation, b: AstNode)
    requires |items| == 3 && NonComment(items) == items
    requires Prec(items[0].rule) == 0 && Prec(items[1].rule) > 0 && Prec(items[2].rule) == 0
    requires Primary(items[0]) == Ok(a) && Primary(items[2]) == Ok(b)
    requires K.OperationFromStr(items[1].text) == Some(op)
    ensures ParseValue(items) == Ok(Expression(a, op, b))
  {
    OneOperatorNest(items, C.Node(C.Leaf(0), 1, C.Leaf(2)));
  }

  lemma {:induction false} OneOperatorNest(items: seq<Pair>, shape: C.Shape)
    requires |items| == 3 && NonComment(items) == items
    requires Prec(items[0].rule) == 0 && Prec(items[1].rule) > 0 && Prec(items[2].rule) == 0
    requires shape == C.Node(C.Leaf(0), 1, C.Leaf(2))
    ensures C.Below(shape, 3) && ParseValue(items) == Build(items, shape)
  {
    C.OneOperator(Precs(items));
  }

  /** Two operators between three operands: the parser builds the tree
      the table prescribes, nesting the second operator under the first
      only when it binds strictly tighter. */
  lemma {:induction false} TwoOperatorsNest(items: seq<Pair>, shape: C.Shape)
    requires |items| == 5 && NonComment(items) == items
    requires Prec(items[0].rule) == 0 && Prec(items[2].rule) == 0 && Prec(items[4].rule) == 0
    requires Prec(items[1].rule) > 0 && Prec(items[3].rule) > 0
    requires shape == if Prec(items[3].rule) > Prec(items[1].rule)
      then C.Node(C.Leaf(0), 1, C.Node(C.Leaf(2), 3, C.Leaf(4)))
      else C.Node(C.Node(C.Leaf(0), 1, C.Leaf(2)), 3, C.Leaf(4))
    ensures C.Below(shape, 5) && ParseValue(items) == Build(items, shape)
  {
    C.TwoOperators(Precs(items), shape);
  }

  /** `a op1 b op2 c` with operands and operators that map: the node is
      `a op1 (b op2 c)` when `op2` binds strictly tighter, `(a op1 b) op2 c`
      otherwise. */
  lemma {:induction false} TwoOperatorsNode(items: seq<Pair>, a: AstNode, op1: K.Operation, b: AstNode,
                         op2: K.Operation, c: AstNode)
    requires |items| == 5 && NonComment(items) == items
    requires Prec(items[0].rule) == 0 && Prec(items[2].rule) == 0 && Prec(items[4].rule) == 0
    requires Prec(items[1].rule) > 0 && Prec(items[3].rule) > 0
    requires Primary(items[0]) == Ok(a) && Primary(items[2]) == Ok(b) && Primary(items[4]) == Ok(c)
    requires K.OperationFromStr(items[1].text) == Some(op1)
    requires K.OperationFromStr(items[3].text) == Some(op2)
    ensures ParseValue(items) == Ok(
      if Prec(items[3].rule) > Prec(items[1].rule) then Expression(a, op1, Expression(b, op2, c))
      else Expression(Expression(a, op1, b), op2, c))
  {
    if Prec(items[3].rule) > Prec(items[1].rule) {
      var inner := C.Node(C.Leaf(2), 3, C.Leaf(4));
      var shape := C.Node(C.Leaf(0), 1, inner);
      TwoOperatorsNest(items, shape);
      BuildNode(items, C.Leaf(2), 3, C.Leaf(4), b, op2, c);
      BuildNode(items, C.Leaf(0), 1, inner, a, op1, Expression(b, op2, c));
    } else {
      var inner := C.Node(C.Leaf(0), 1, C.Leaf(2));
      var shape := C.Node(inner, 3, C.Leaf(4));
      TwoOperatorsNest(items, shape);
      BuildNode(items, C.Leaf(0), 1, C.Leaf(2), a, op1, b);
      BuildNode(items, inner, 3, C.Leaf(4), Expression(a, op1, b), op2, c);
    }
  }

  /** An operator node whose operands and operator map builds their
      expression. */
  lemma {:induction false} BuildNode(items: seq<Pair>, l: C.Shape, o: nat, r: C.Shape,
                                     x: AstNode, op: K.Operation, y: AstNode)
    requires C.Below(C.Node(l, o, r), |items|)
    requires Build(items, l) == Ok(x) && Build(items, r) == Ok(y)
    requires K.OperationFromStr(items[o].text) == Some(op)
    ensures Build(items, C.Node(l, o, r)) == Ok(Expression(x, op, y))
  {
  }

  // ---------------------------------------------------------------------
  // SELECT
  // ---------------------------------------------------------------------

  predicate Has(kids: seq<Pair>, rule: Rule) {
    exists j :: 0 <= j < |kids| && kids[j].rule == rule
  }

  /** `j` is the first child with tag `rule`. */
  predicate FirstWith(kids: seq<Pair>, j: nat, rule: Rule) {
    j < |kids| && kids[j].rule == rule && forall k :: 0 <= k < j ==> kids[k].rule != rule
  }

  lemma {:induction false} FindHas(kids: seq<Pair>, rule: Rule)
    ensures Find(kids, {rule}).Some? <==> Has(kids, rule)
    ensures forall j: nat :: FirstWith(kids, j, rule) <==> Find(kids, {rule}) == Some(j)
  {
    FindFirst(kids, {rule});
    if Has(kids, rule) {
      var j :| 0 <= j < |kids| && kids[j].rule == rule;
      assert kids[j].rule in {rule};
    }
    forall j: nat | FirstWith(kids, j, rule)
      ensures Find(kids, {rule}) == Some(j)
    {
      assert kids[j].rule in {rule};
    }
  }

  lemma {:induction false} ListOfFacts(kids: seq<Pair>, rule: Rule)
    requires ListOf(kids, {rule}).Ok?
    ensures !Has(kids, rule) ==> ListOf(kids, {rule}).value == []
    ensures forall j: nat :: FirstWith(kids, j, rule) ==> ListOf(kids, {rule}) == ParseEach(kids[j].inner)
    ensures forall j: nat :: FirstWith(kids, j, rule) ==> |ListOf(kids, {rule}).value| == |kids[j].inner|
  {
    FindHas(kids, rule);
  }

  lemma {:induction false} OptionalFoundFacts(kids: seq<Pair>, rule: Rule)
    requires OptionalFound(kids, {rule}).Ok?
    ensures OptionalFound(kids, {rule}).value.Some? <==> Has(kids, rule)
    ensures forall j: nat :: FirstWith(kids, j, rule) ==>
      Ok(OptionalFound(kids, {rule}).value.value) == Primary(kids[j])
  {
    FindHas(kids, rule);
    match Find(kids, {rule})
    case None =>
    case Some(i) => SingleIsPrimary(kids[i]);
  }

  lemma {:induction false} ModeOfFacts(kids: seq<Pair>)
    requires ModeOf(kids).Ok?
    ensures !Has(kids, select_mode) ==> ModeOf(kids).value == K.All
    ensures forall j: nat :: FirstWith(kids, j, select_mode) ==>
      K.Upper(kids[j].text) == K.SelectModeKeyword(ModeOf(kids).value)
  {
    FindHas(kids, select_mode);
  }

  /** A SELECT with no clauses other than those always present takes the
      defaults: no CTEs, mode ALL, no columns, no tables, no WHERE and no
      GROUP BY. */
  lemma {:induction false} SelectDefaults(kids: seq<Pair>)
    requires forall j :: 0 <= j < |kids| ==>
      kids[j].rule !in {ctes, select_mode, columns, table_expressions, where_clause, group_by}
    ensures SelectStatementArm(kids) == Ok(SelectStatement([], K.All, [], [], None, None))
  {
    FindHas(kids, ctes);
    FindHas(kids, select_mode);
    FindHas(kids, columns);
    FindHas(kids, table_expressions);
    FindHas(kids, where_clause);
    FindHas(kids, group_by);
  }

  /** Each SELECT clause comes from the first child with its tag: WHERE and
      GROUP BY are present exactly when such a child is and are that child
      climbed, the mode is the one the first `select_mode` child names, and
      each list is the children of the list's pair, each climbed on its own. */
  lemma {:induction false} SelectClausesByTag(kids: seq<Pair>)
    requires SelectStatementArm(kids).Ok?
    ensures var r := SelectStatementArm(kids).value;
      r.SelectStatement? &&
      (r.where_expr.Some? <==> Has(kids, where_clause)) &&
      (r.group_by.Some? <==> Has(kids, group_by)) &&
      (!Has(kids, select_mode) ==> r.mode == K.All) &&
      (!Has(kids, ctes) ==> r.common == []) &&
      (!Has(kids, columns) ==> r.columns == []) &&
      (!Has(kids, table_expressions) ==> r.table_exprs == [])
    ensures var r := SelectStatementArm(kids).value;
      forall j: nat :: FirstWith(kids, j, select_mode) ==>
        K.Upper(kids[j].text) == K.SelectModeKeyword(r.mode)
    ensures var r := SelectStatementArm(kids).value;
      forall j: nat :: FirstWith(kids, j, columns) ==>
        Ok(r.columns) == ParseEach(kids[j].inner) && |r.columns| == |kids[j].inner|
    ensures var r := SelectStatementArm(kids).value;
      forall j: nat :: FirstWith(kids, j, ctes) ==> Ok(r.common) == ParseEach(kids[j].inner)
    ensures var r := SelectStatementArm(kids).value;
      forall j: nat :: FirstWith(kids, j, table_expressions) ==> Ok(r.table_exprs) == ParseEach(kids[j].inner)
    ensures var r := SelectStatementArm(kids).value;
      forall j: nat :: FirstWith(kids, j, group_by) ==>
        r.group_by.Some? && Ok(r.group_by.value) == Primary(kids[j])
    ensures var r := SelectStatementArm(kids).value;
      forall j: nat :: FirstWith(kids, j, where_clause) ==>
        Ok(r.where_expr.value) == Primary(kids[j])
  {
    var common, mode := ListOf(kids, {ctes}), ModeOf(kids);
    var cols, tables := ListOf(kids, {columns}), ListOf(kids, {table_expressions});
    var w, g := OptionalFound(kids, {where_clause}), OptionalFound(kids, {group_by});
    assert common.Ok? && mode.Ok? && cols.Ok? && tables.Ok? && w.Ok? && g.Ok?;
    assert SelectStatementArm(kids) ==
      Ok(SelectStatement(common.value, mode.value, cols.value, tables.value, w.value, g.value));
    ListOfFacts(kids, ctes);
    ListOfFacts(kids, columns);
    ListOfFacts(kids, table_expressions);
    ModeOfFacts(kids);
    OptionalFoundFacts(kids, where_clause);
    OptionalFoundFacts(kids, group_by);
  }

  // ---------------------------------------------------------------------
  // Aggregates
  // ---------------------------------------------------------------------

  /** COUNT: when the first argument is a select mode it is the mode and
      the rest are the columns; otherwise the mode is ALL and every argument
      is a column. No argument is lost either way. */
  lemma {:induction false} CountNormalisesMode(kids: seq<Pair>)
    ensures CountArm(kids).Ok? <==> ParseEach(kids).Ok?
    ensures CountArm(kids).Ok? ==>
      var nodes, r := ParseEach(kids).value, CountArm(kids).value;
      r.CountFunction? && r.agg_mode.SelectMode? &&
      ((|nodes| > 0 && nodes[0].SelectMode?) <==> nodes == [r.agg_mode] + r.columns) &&
      (!(|nodes| > 0 && nodes[0].SelectMode?) ==> r.agg_mode == SelectMode(K.All) && r.columns == nodes)
  {
    if CountArm(kids).Ok? {
      var nodes, r := ParseEach(kids).value, CountArm(kids).value;
      if |nodes| > 0 && nodes[0].SelectMode? {
        assert nodes == [nodes[0]] + nodes[1..];
      } else {
        assert |[r.agg_mode] + r.columns| != |nodes|;
      }
    }
  }

  /** MAX, MIN and SUM read an explicit mode only from exactly two
      arguments; any other non-empty argument list means mode ALL over the
      first argument. */
  lemma {:induction false} AggregatesNormaliseMode(kids: seq<Pair>)
    ensures ModeAndExpr(kids).Ok? <==> ParseEach(kids).Ok? && |kids| >= 1
    ensures ModeAndExpr(kids).Ok? ==>
      var nodes, me := ParseEach(kids).value, ModeAndExpr(kids).value;
      (|kids| == 2 ==> me == (nodes[0], nodes[1])) &&
      (|kids| != 2 ==> me == (SelectMode(K.All), nodes[0]))
  {
  }

  // ---------------------------------------------------------------------
  // CASE
  // ---------------------------------------------------------------------

  /** CASE has a scrutinee exactly when a `case_clause` child is present and
      an ELSE exactly when an `else_clause` child is; its WHEN clauses are
      the `when_clause` children, in source order. */
  lemma {:induction false} CaseExpressionParts(kids: seq<Pair>)
    requires CaseExpressionArm(kids).Ok?
    ensures var r := CaseExpressionArm(kids).value;
      var whens := WithRule(kids, when_clause);
      r.CaseExpression? &&
      (r.case_expr.Some? <==> Has(kids, case_clause)) &&
      (r.else_expr.Some? <==> Has(kids, else_clause)) &&
      |r.when_expr| == |whens| &&
      forall i :: 0 <= i < |whens| ==> Ok(r.when_expr[i]) == Primary(whens[i])
  {
    FindHas(kids, case_clause);
    FindHas(kids, else_clause);
    var whens := WithRule(kids, when_clause);
    ParseEachIsPrimary(whens);
  }

  // ---------------------------------------------------------------------
  // Intervals
  // ---------------------------------------------------------------------

  /** The list a set of tags selects is empty without a matching child, and
      otherwise the children of the first matching child, each climbed on
      its own. */
  lemma {:induction false} ListOfFirst(kids: seq<Pair>, rules: set<Rule>)
    requires ListOf(kids, rules).Ok?
    ensures (forall j :: 0 <= j < |kids| ==> kids[j].rule !in rules) ==> ListOf(kids, rules).value == []
    ensures forall j :: 0 <= j < |kids| && kids[j].rule in rules &&
              (forall k :: 0 <= k < j ==> kids[k].rule !in rules)
              ==> ListOf(kids, rules) == ParseEach(kids[j].inner)
  {
    FindFirst(kids, rules);
  }

  /** The target unit of a year-to-month interval exists exactly when an
      `interval_year` or `interval_month` child sits at index 2 or later,
      and it is the unit the first such child names. */
  lemma {:induction false} YearMonthTargetFacts(kids: seq<Pair>)
    requires |kids| >= 2 && YearMonthTarget(kids).Ok?
    ensures YearMonthTarget(kids).value.Some? <==>
      exists j :: 2 <= j < |kids| && kids[j].rule in {interval_year, interval_month}
    ensures forall j :: 2 <= j < |kids| && kids[j].rule in {interval_year, interval_month} &&
              (forall k :: 2 <= k < j ==> kids[k].rule !in {interval_year, interval_month})
              ==> K.Upper(kids[j].text) == K.IntervalKeyword(YearMonthTarget(kids).value.value)
  {
    var tail := kids[2..];
    FindFirst(tail, {interval_year, interval_month});
    assert forall j :: 2 <= j < |kids| ==> kids[j] == tail[j - 2];
    match Find(tail, {interval_year, interval_month})
    case None =>
    case Some(i) =>
      K.IntervalFromStrExactly(kids[2 + i].text, YearMonthTarget(kids).value.value);
  }

  /** A year-to-month interval is all its children climbed together; its
      period is the unit the second child names; its precision is the
      children of the first precision child, each climbed on its own, or
      empty; it never has a target precision. */
  lemma {:induction false} YearToMonthParts(kids: seq<Pair>)
    requires IntervalYearToMonth(kids).Ok?
    ensures |kids| >= 2
    ensures var r := IntervalYearToMonth(kids).value;
      r.IntervalLiteral? && r.convert_precision.None? &&
      Ok(r.interval) == ParseValue(kids) &&
      K.Upper(kids[1].text) == K.IntervalKeyword(r.period)
    ensures var r := IntervalYearToMonth(kids).value;
      (forall j :: 0 <= j < |kids| ==> kids[j].rule !in {interval_precision, interval_precision_with_fractional})
      ==> r.precision == []
    ensures var r := IntervalYearToMonth(kids).value;
      forall j :: 0 <= j < |kids| && kids[j].rule in {interval_precision, interval_precision_with_fractional} &&
        (forall k :: 0 <= k < j ==> kids[k].rule !in {interval_precision, interval_precision_with_fractional})
        ==> Ok(r.precision) == ParseEach(kids[j].inner)
  {
    YearToMonthNode(kids);
    var r := IntervalYearToMonth(kids).value;
    var precision := ListOf(kids, {interval_precision, interval_precision_with_fractional});
    assert Ok(r.precision) == precision;
    K.IntervalFromStrExactly(kids[1].text, r.period);
    ListOfFirst(kids, {interval_precision, interval_precision_with_fractional});
  }

  /** The target unit of a year-to-month interval is the one the first
      `interval_year` or `interval_month` child from the third on names, and
      there is none without such a child. */
  lemma {:induction false} YearToMonthConversion(kids: seq<Pair>)
    requires IntervalYearToMonth(kids).Ok?
    ensures |kids| >= 2
    ensures var r := IntervalYearToMonth(kids).value;
      r.IntervalLiteral? &&
      (r.convert_to.Some? <==> exists j :: 2 <= j < |kids| && kids[j].rule in {interval_year, interval_month})
    ensures var r := IntervalYearToMonth(kids).value;
      forall j :: 2 <= j < |kids| && kids[j].rule in {interval_year, interval_month} &&
        (forall k :: 2 <= k < j ==> kids[k].rule !in {interval_year, interval_month})
        ==> K.Upper(kids[j].text) == K.IntervalKeyword(r.convert_to.value)
  {
    YearToMonthNode(kids);
    YearMonthTargetFacts(kids);
  }

  /** The node a year-to-month interval builds, part by part. */
  lemma {:induction false} YearToMonthNode(kids: seq<Pair>)
    requires IntervalYearToMonth(kids).Ok?
    ensures |kids| >= 2 && ParseValue(kids).Ok? && K.IntervalFromStr(kids[1].text).Some?
    ensures ListOf(kids, {interval_precision, interval_precision_with_fractional}).Ok?
    ensures YearMonthTarget(kids).Ok?
    ensures IntervalYearToMonth(kids).value == IntervalLiteral(ParseValue(kids).value,
      K.IntervalFromStr(kids[1].text).value,
      ListOf(kids, {interval_precision, interval_precision_with_fractional}).value,
      YearMonthTarget(kids).value, None)
  {
    var interval := ParseValue(kids);
    assert interval.Ok? && |kids| >= 2;
    var period := Unwrap(K.IntervalFromStr(kids[1].text));
    var precision := ListOf(kids, {interval_precision, interval_precision_with_fractional});
    var target := YearMonthTarget(kids);
    assert period.Ok? && precision.Ok? && target.Ok?;
    assert IntervalYearToMonth(kids) ==
      Ok(IntervalLiteral(interval.value, period.value, precision.value, target.value, None));
  }

  /** A day-to-second interval takes its target unit from the first child of
      its `interval_day_conversion` child and its target precision from the
      second; with no such child it has neither. */
  lemma {:induction false} DayToSecondConversion(kids: seq<Pair>)
    requires IntervalDayToSecond(kids).Ok?
    ensures |kids| >= 2
    ensures var r := IntervalDayToSecond(kids).value;
      r.IntervalLiteral? && K.Upper(kids[1].text) == K.IntervalKeyword(r.period) &&
      (!Has(kids, interval_day_conversion) ==> r.convert_to.None? && r.convert_precision.None?)
    ensures var r := IntervalDayToSecond(kids).value;
      forall i: nat :: FirstWith(kids, i, interval_day_conversion) ==>
        var c := kids[i].inner;
        |c| >= 1 && r.convert_to.Some? &&
        K.Upper(c[0].text) == K.IntervalKeyword(r.convert_to.value) &&
        (r.convert_precision.Some? <==> |c| >= 2) &&
        (|c| >= 2 ==> Ok(r.convert_precision.value) == ParseValue([c[1]]))
  {
    FindHas(kids, interval_day_conversion);
    var interval := ParseValue(kids);
    assert interval.Ok? && |kids| >= 2;
    var period := Unwrap(K.IntervalFromStr(kids[1].text));
    var precision := ListOf(kids, {interval_precision, interval_precision_with_fractional});
    assert period.Ok? && precision.Ok?;
    match Find(kids, {interval_day_conversion})
    case None =>
      assert IntervalDayToSecond(kids) ==
        Ok(IntervalLiteral(interval.value, period.value, precision.value, None, None));
    case Some(i) =>
      var c := kids[i].inner;
      assert c != [];
      var target := Unwrap(K.IntervalFromStr(c[0].text));
      var targetPrecision := OptionalNth(c, 1);
      assert target.Ok? && targetPrecision.Ok?;
      assert IntervalDayToSecond(kids) ==
        Ok(IntervalLiteral(interval.value, period.value, precision.value, Some(target.value), targetPrecision.value));
  }

  // ---------------------------------------------------------------------
  // Other arms
  // ---------------------------------------------------------------------

  /** IS NULL unless a `negate` child is present, then IS NOT NULL. */
  lemma {:induction false} IsNullNegation(kids: seq<Pair>)
    requires IsNullArm(kids).Ok?
    ensures var r := IsNullArm(kids).value;
      r.IsNullExpression? && Ok(r.expr) == ParseValue(kids) &&
      (r.is_null <==> !Has(kids, negate))
  {
    FindHas(kids, negate);
  }

  /** An unknown function keeps its name node and every argument; it fails
      only when one of those fails or the argument list is missing. */
  lemma {:induction false} UnknownFunctionFallback(kids: seq<Pair>)
    ensures UnknownFunctionArm(kids).Ok? <==>
      ParseValue(kids).Ok? && |kids| >= 2 && ParseEach(kids[1].inner).Ok?
    ensures UnknownFunctionArm(kids).Ok? ==>
      var r := UnknownFunctionArm(kids).value;
      r.UnknownFunction? && Ok(r.name) == ParseValue(kids) &&
      |r.exprs| == |kids[1].inner| &&
      forall i :: 0 <= i < |r.exprs| ==> Ok(r.exprs[i]) == ParseValue([kids[1].inner[i]])
  {
    if |kids| >= 2 {
      ParseEachElements(kids[1].inner);
    }
  }

  /** The name of an unknown function is its first child alone when the
      argument list follows it directly. */
  lemma {:induction false} UnknownFunctionName(kids: seq<Pair>)
    requires |kids| >= 2 && Prec(kids[1].rule) == 0
    requires forall i :: 0 <= i < |kids| ==> kids[i].rule != COMMENT
    requires UnknownFunctionArm(kids).Ok?
    ensures var r := UnknownFunctionArm(kids).value;
      r.UnknownFunction? && Ok(r.name) == Primary(kids[0]) &&
      Ok(r.exprs) == ParseEach(kids[1].inner)
  {
    NonCommentIdempotentOnClean(kids);
    FirstOperandOnly(kids);
    var name := ParseValue(kids);
    var args := ParseEach(kids[1].inner);
    assert name.Ok? && args.Ok?;
    assert UnknownFunctionArm(kids) == Ok(UnknownFunction(name.value, args.value));
  }

  lemma {:induction false} NonCommentIdempotentOnClean(ps: seq<Pair>)
    requires forall i :: 0 <= i < |ps| ==> ps[i].rule != COMMENT
    ensures NonComment(ps) == ps
  {
    if ps != [] {
      NonCommentIdempotentOnClean(ps[1..]);
      assert [ps[0]] + ps[1..] == ps;
    }
  }

  /** GROUP BY never has a HAVING; its groupings are its children, each
      climbed on its own, and it fails exactly when one of them does. */
  lemma {:induction false} GroupByHasNoHaving(kids: seq<Pair>)
    ensures GroupByArm(kids).Ok? <==> ParseEach(kids).Ok?
    ensures GroupByArm(kids).Ok? ==> var r := GroupByArm(kids).value;
      r.GroupBy? && r.having.None? && r.groupings == ParseEach(kids).value &&
      |r.groupings| == |kids|
  {
  }

  /** WITH never lists columns; its name is the first `identifier` child and
      its query the first `select_statement` child after that. */
  lemma {:induction false} WithClauseParts(kids: seq<Pair>)
    requires WithClauseArm(kids).Ok?
    ensures var r := WithClauseArm(kids).value;
      r.WithClause? && r.columns == [] &&
      exists i, j :: 0 <= i < j < |kids| &&
        kids[i].rule == identifier && kids[j].rule == select_statement &&
        (forall k :: 0 <= k < i ==> kids[k].rule != identifier) &&
        (forall k :: i < k < j ==> kids[k].rule != select_statement) &&
        Ok(r.identifier) == Primary(kids[i]) && Ok(r.query) == Primary(kids[j])
  {
    var i, j := WithClauseIndices(kids);
    SingleIsPrimary(kids[i]);
    SingleIsPrimary(kids[j]);
  }

  /** The two children the WITH arm reads, and what it builds from them. */
  lemma {:induction false} WithClauseIndices(kids: seq<Pair>) returns (i: nat, j: nat)
    requires WithClauseArm(kids).Ok?
    ensures i < j < |kids| && kids[i].rule == identifier && kids[j].rule == select_statement
    ensures forall k :: 0 <= k < i ==> kids[k].rule != identifier
    ensures forall k :: i < k < j ==> kids[k].rule != select_statement
    ensures ParseValue([kids[i]]).Ok? && ParseValue([kids[j]]).Ok?
    ensures WithClauseArm(kids) ==
      Ok(WithClause(ParseValue([kids[i]]).value, [], ParseValue([kids[j]]).value))
  {
    var fi := Find(kids, {identifier});
    assert fi.Some?;
    i := fi.value;
    FindFirst(kids, {identifier});
    var fj := Find(kids[i + 1..], {select_statement});
    assert fj.Some?;
    FindFirst(kids[i + 1..], {select_statement});
    j := i + 1 + fj.value;
    assert kids[j] == kids[i + 1..][fj.value];
    assert forall k :: i < k < j ==> kids[k] == kids[i + 1..][k - i - 1];
  }

  /** A named column has an alias exactly when it has a second child, and
      the alias is that child's text. */
  lemma {:induction false} NamedColumnAlias(kids: seq<Pair>)
    requires NamedColumnArm(kids).Ok?
    ensures var r := NamedColumnArm(kids).value;
      r.NamedColumn? && Ok(r.expr) == ParseValue(kids) &&
      (r.alias.Some? <==> |kids| >= 2) &&
      (|kids| >= 2 ==> r.alias.value == kids[1].text)
  {
  }
}

/** Worked examples: pair trees of the shape the grammar produces for some of
    the parser's own test inputs, and the node the model builds for each.
    The leaves of each tree are parameters fixed by the precondition. */
module ParserExamples {
  import opened Wrappers
  import opened Pest
  import opened Ast
  import opened Parser
  import opened ParserProps
  import K = Keywords

  function Token(rule: Rule, s: string): Pair { Pair(rule, s, []) }

  /** An operand token: a leaf pair that is not an operator. */
  lemma {:induction false} OperandToken(p: Pair)
    requires p.inner == [] && p.rule in {identifier, integer_literal, boolean_literal}
    ensures p.rule != COMMENT && Prec(p.rule) == 0
    ensures p.rule == identifier ==> Primary(p) == Ok(Identifier(p.text))
    ensures p.rule == integer_literal ==> Primary(p) == Ok(IntegerLiteral(p.text))
    ensures p.rule == boolean_literal ==> Primary(p) == Ok(BooleanLiteral(p.text))
  {
  }

  /** `p` is an operand of a run, and `primary` maps it to `x`. */
  predicate Operand(p: Pair, x: AstNode) {
    p.rule != COMMENT && Prec(p.rule) == 0 && Primary(p) == Ok(x)
  }

  /** `p` is an infix operator of a run, spelling `op`. */
  predicate Operator(p: Pair, op: K.Operation) {
    p.rule != COMMENT && Prec(p.rule) > 0 && K.OperationFromStr(p.text) == Some(op)
  }

  /** The spellings of the operators these examples use. */
  lemma {:induction false} Spellings()
    ensures K.OperationSymbol(K.Concat) == "||" && K.OperationSymbol(K.Equal) == "="
    ensures K.OperationSymbol(K.Subtract) == "-" && K.OperationSymbol(K.And) == "AND"
  {
  }

  /** An operator token maps to the operation it spells. */
  lemma {:induction false} OperatorToken(p: Pair, op: K.Operation)
    requires Prec(p.rule) > 0 && p.text == K.OperationSymbol(op)
    ensures Operator(p, op)
  {
    assert K.Upper(p.text) == p.text;
    K.OperationFromStrExactly(p.text, op);
  }

  /** The `expression` and `where_clause` arms climb their children. */
  lemma {:induction false} ExpressionDispatch(text: string, kids: seq<Pair>, r: Outcome<AstNode>)
    requires r == Arm(expression, text, kids)
    ensures r == ParseValue(kids)
  {
  }

  lemma {:induction false} WhereDispatch(text: string, kids: seq<Pair>, r: Outcome<AstNode>)
    requires r == Arm(where_clause, text, kids)
    ensures r == ParseValue(kids)
  {
  }

  /** An `expression` or `where_clause` pair is its children climbed. */
  lemma {:induction false} ClimbedArm(p: Pair, n: AstNode)
    requires p.rule in {expression, where_clause}
    requires ParseValue(NonComment(p.inner)) == Ok(n)
    ensures ParseValue([p]) == Ok(n)
  {
    SingleIsPrimary(p);
    if p.rule == expression {
      ExpressionDispatch(p.text, NonComment(p.inner), Arm(p.rule, p.text, NonComment(p.inner)));
    } else {
      WhereDispatch(p.text, NonComment(p.inner), Arm(p.rule, p.text, NonComment(p.inner)));
    }
  }

  lemma {:induction false} SingleIntegerList(n: Pair)
    requires n.rule == integer_literal && n.inner == []
    ensures ParseEach([n]) == Ok([IntegerLiteral(n.text)])
  {
    OperandToken(n);
    ParseEachIsPrimary([n]);
    assert [n][0] == n;
    var v := ParseEach([n]).value;
    assert |v| == 1 && v[0] == IntegerLiteral(n.text);
    assert v == [IntegerLiteral(n.text)];
  }

  lemma {:induction false} CoalesceDispatch(p: Pair)
    requires p.rule == coalesce_function
    ensures Primary(p) == (var e :- FirstChildList(NonComment(p.inner)); Ok(CoalesceFunction(e)))
  {
    CoalesceArmDispatch(p.text, NonComment(p.inner));
  }

  lemma {:induction false} CoalesceArmDispatch(text: string, kids: seq<Pair>)
    ensures Arm(coalesce_function, text, kids) == (var e :- FirstChildList(kids); Ok(CoalesceFunction(e)))
  {
  }

  /** `COALESCE(n)` of one integer literal; the rule of the argument list
      is not inspected. */
  lemma {:induction false} CoalesceOfInteger(p: Pair, n: Pair)
    requires p.rule == coalesce_function && |p.inner| == 1 && p.inner[0].rule != COMMENT
    requires p.inner[0].inner == [n] && n.rule == integer_literal && n.inner == []
    ensures Primary(p) == Ok(CoalesceFunction([IntegerLiteral(n.text)]))
  {
    CoalesceDispatch(p);
    NonCommentIdempotentOnClean(p.inner);
    SingleIntegerList(n);
    assert FirstChildList(p.inner) == ParseEach([n]);
  }

  lemma {:induction false} KeepFirst(p: Pair, rest: seq<Pair>)
    requires p.rule != COMMENT
    ensures NonComment([p] + rest) == [p] + NonComment(rest)
  {
    assert ([p] + rest)[1..] == rest;
  }

  lemma {:induction false} CleanFive(p0: Pair, p1: Pair, p2: Pair, p3: Pair, p4: Pair)
    requires p0.rule != COMMENT && p1.rule != COMMENT && p2.rule != COMMENT
    requires p3.rule != COMMENT && p4.rule != COMMENT
    ensures NonComment([p0, p1, p2, p3, p4]) == [p0, p1, p2, p3, p4]
  {
    KeepFirst(p4, []);
    assert [p4] + [] == [p4];
    KeepFirst(p3, [p4]);
    assert [p3] + [p4] == [p3, p4];
    KeepFirst(p2, [p3, p4]);
    assert [p2] + [p3, p4] == [p2, p3, p4];
    KeepFirst(p1, [p2, p3, p4]);
    assert [p1] + [p2, p3, p4] == [p1, p2, p3, p4];
    KeepFirst(p0, [p1, p2, p3, p4]);
    assert [p0] + [p1, p2, p3, p4] == [p0, p1, p2, p3, p4];
  }

  /** Five operand and operator pairs, given one by one. */
  lemma {:induction false} FiveItems(p0: Pair, p1: Pair, p2: Pair, p3: Pair, p4: Pair,
                                     a: AstNode, op1: K.Operation, b: AstNode, op2: K.Operation, c: AstNode)
    requires Operand(p0, a) && Operator(p1, op1) && Operand(p2, b) && Operator(p3, op2) && Operand(p4, c)
    ensures NonComment([p0, p1, p2, p3, p4]) == [p0, p1, p2, p3, p4]
    ensures ParseValue([p0, p1, p2, p3, p4]) == Ok(
      if Prec(p3.rule) > Prec(p1.rule) then Expression(a, op1, Expression(b, op2, c))
      else Expression(Expression(a, op1, b), op2, c))
  {
    CleanFive(p0, p1, p2, p3, p4);
    TwoOperatorsNode([p0, p1, p2, p3, p4], a, op1, b, op2, c);
  }

  /** `a = b - c`: subtraction binds tighter than equality. */
  lemma {:induction false} EqualityAboveSubtraction(a: Pair, eq: Pair, b: Pair, minus: Pair, c: Pair)
    requires a == Token(identifier, "a") && b == Token(identifier, "b") && c == Token(identifier, "c")
    requires eq == Token(operation_equal, "=") && minus == Token(operation_subtract, "-")
    ensures ParseValue([Pair(expression, "a = b - c", [a, eq, b, minus, c])])
      == Ok(Expression(Identifier("a"), K.Equal, Expression(Identifier("b"), K.Subtract, Identifier("c"))))
  {
    var k := [a, eq, b, minus, c];
    OperandToken(a);
    OperandToken(b);
    OperandToken(c);
    Spellings();
    OperatorToken(eq, K.Equal);
    OperatorToken(minus, K.Subtract);
    FiveItems(a, eq, b, minus, c, Identifier("a"), K.Equal, Identifier("b"), K.Subtract, Identifier("c"));
    ClimbedArm(Pair(expression, "a = b - c", k),
                    Expression(Identifier("a"), K.Equal, Expression(Identifier("b"), K.Subtract, Identifier("c"))));
  }

  /** `WHERE TRUE AND a = 1`: equality binds tighter than AND. */
  lemma {:induction false} WhereAndAboveEquality(t: Pair, and: Pair, a: Pair, eq: Pair, one: Pair)
    requires t == Token(boolean_literal, "TRUE") && a == Token(identifier, "a")
    requires one == Token(integer_literal, "1")
    requires and == Token(operation_and, "AND") && eq == Token(operation_equal, "=")
    ensures ParseValue([Pair(where_clause, "WHERE TRUE AND a = 1", [t, and, a, eq, one])])
      == Ok(Expression(BooleanLiteral("TRUE"), K.And,
              Expression(Identifier("a"), K.Equal, IntegerLiteral("1"))))
  {
    var k := [t, and, a, eq, one];
    OperandToken(t);
    OperandToken(a);
    OperandToken(one);
    Spellings();
    OperatorToken(and, K.And);
    OperatorToken(eq, K.Equal);
    FiveItems(t, and, a, eq, one, BooleanLiteral("TRUE"), K.And, Identifier("a"), K.Equal, IntegerLiteral("1"));
    ClimbedArm(Pair(where_clause, "WHERE TRUE AND a = 1", k),
                    Expression(BooleanLiteral("TRUE"), K.And, Expression(Identifier("a"), K.Equal, IntegerLiteral("1"))));
  }

  /** `COALESCE(1) || a || COALESCE(2)`: concatenation groups to the left. */
  lemma {:induction false} ConcatGroupsLeft(c1: Pair, n1: Pair, cat1: Pair, a: Pair, cat2: Pair, c2: Pair, n2: Pair)
    requires n1 == Token(integer_literal, "1") && n2 == Token(integer_literal, "2")
    requires c1 == Pair(coalesce_function, "COALESCE(1)", [Pair(other("expressions"), "1", [n1])])
    requires c2 == Pair(coalesce_function, "COALESCE(2)", [Pair(other("expressions"), "2", [n2])])
    requires a == Token(identifier, "a")
    requires cat1 == Token(operation_concat, "||") && cat2 == Token(operation_concat, "||")
    ensures ParseValue([Pair(expression, "COALESCE(1) || a || COALESCE(2)", [c1, cat1, a, cat2, c2])])
      == Ok(Expression(
              Expression(CoalesceFunction([IntegerLiteral("1")]), K.Concat, Identifier("a")),
              K.Concat, CoalesceFunction([IntegerLiteral("2")])))
  {
    var k := [c1, cat1, a, cat2, c2];
    CoalesceOfInteger(c1, n1);
    CoalesceOfInteger(c2, n2);
    ConcatRun(c1, cat1, a, cat2, c2, CoalesceFunction([IntegerLiteral("1")]), CoalesceFunction([IntegerLiteral("2")]));
    ClimbedArm(Pair(expression, "COALESCE(1) || a || COALESCE(2)", k),
               Expression(Expression(CoalesceFunction([IntegerLiteral("1")]), K.Concat, Identifier("a")),
                          K.Concat, CoalesceFunction([IntegerLiteral("2")])));
  }

  /** `x || a || y` for two function calls `x` and `y`. */
  lemma {:induction false} ConcatRun(c1: Pair, cat1: Pair, a: Pair, cat2: Pair, c2: Pair, x: AstNode, y: AstNode)
    requires c1.rule == coalesce_function && c2.rule == coalesce_function
    requires Primary(c1) == Ok(x) && Primary(c2) == Ok(y)
    requires a == Token(identifier, "a")
    requires cat1 == Token(operation_concat, "||") && cat2 == Token(operation_concat, "||")
    ensures NonComment([c1, cat1, a, cat2, c2]) == [c1, cat1, a, cat2, c2]
    ensures ParseValue([c1, cat1, a, cat2, c2]) == Ok(Expression(Expression(x, K.Concat, Identifier("a")), K.Concat, y))
  {
    OperandToken(a);
    Spellings();
    OperatorToken(cat1, K.Concat);
    OperatorToken(cat2, K.Concat);
    FiveItems(c1, cat1, a, cat2, c2, x, K.Concat, Identifier("a"), K.Concat, y);
  }

  /** `a -- comment AND b`: the comment between the operands is dropped. */
  lemma {:induction false} CommentInsideExpression(a: Pair, cm: Pair, and: Pair, b: Pair)
    requires a == Token(identifier, "a") && b == Token(identifier, "b")
    requires cm == Token(COMMENT, "-- comment") && and == Token(operation_and, "AND")
    ensures ParseValue([Pair(expression, "a -- comment AND b", [a, cm, and, b])])
      == Ok(Expression(Identifier("a"), K.And, Identifier("b")))
  {
    OperandToken(a);
    OperandToken(b);
    Spellings();
    OperatorToken(and, K.And);
    DropSecond(a, cm, and, b);
    OneOperatorNode([a, and, b], Identifier("a"), K.And, Identifier("b"));
    ClimbedArm(Pair(expression, "a -- comment AND b", [a, cm, and, b]), Expression(Identifier("a"), K.And, Identifier("b")));
  }

  lemma {:induction false} DropSecond(a: Pair, cm: Pair, x: Pair, y: Pair)
    requires cm.rule == COMMENT && a.rule != COMMENT && x.rule != COMMENT && y.rule != COMMENT
    ensures NonComment([a, x, y]) == [a, x, y]
    ensures NonComment([a, cm, x, y]) == [a, x, y]
  {
    KeepFirst(y, []);
    KeepFirst(x, [y]);
    KeepFirst(a, [x, y]);
    assert [cm, x, y][1..] == [x, y];
    KeepFirst(a, [cm, x, y]);
  }

  lemma {:induction false} SelectDispatch(p: Pair)
    requires p.rule == select_statement
    ensures ParseValue([p]) == SelectStatementArm(NonComment(p.inner))
  {
    SingleIsPrimary(p);
    SelectArmDispatch(p.text, NonComment(p.inner));
  }

  lemma {:induction false} SelectArmDispatch(text: string, kids: seq<Pair>)
    ensures Arm(select_statement, text, kids) == SelectStatementArm(kids)
  {
  }

  /** A SELECT with only a column list takes every other part's default. */
  lemma {:induction false} SelectOfColumns(cols: Pair)
    requires cols.rule == columns
    ensures SelectStatementArm([cols]) ==
      (var c :- ParseEach(cols.inner); Ok(SelectStatement([], K.All, c, [], None, None)))
  {
    assert Find([cols], {ctes}) == None;
    assert Find([cols], {select_mode}) == None;
    assert Find([cols], {table_expressions}) == None;
    assert Find([cols], {where_clause}) == None;
    assert Find([cols], {group_by}) == None;
    assert Find([cols], {columns}) == Some(0);
  }

  /** The arm on a lone column list holding the literal `1`. */
  lemma {:induction false} SelectOfOne(one: Pair, cols: Pair)
    requires one == Token(integer_literal, "1") && cols == Pair(columns, "1", [one])
    ensures SelectStatementArm([cols]) == Ok(SelectStatement([], K.All, [IntegerLiteral("1")], [], None, None))
  {
    SelectOfColumns(cols);
    SingleIntegerList(one);
  }

  /** `SELECT 1`: one literal column, every other part empty. */
  lemma {:induction false} SelectLiteral(one: Pair, cols: Pair)
    requires one == Token(integer_literal, "1") && cols == Pair(columns, "1", [one])
    ensures ParseValue([Pair(select_statement, "SELECT 1", [cols])])
      == Ok(SelectStatement([], K.All, [IntegerLiteral("1")], [], None, None))
  {
    SelectDispatch(Pair(select_statement, "SELECT 1", [cols]));
    KeepFirst(cols, []);
    assert [cols] + [] == [cols];
    SelectOfOne(one, cols);
  }

  /** `-- comment` before `select 1`: the same statement. */
  lemma {:induction false} CommentBeforeStatement(cm: Pair, one: Pair, cols: Pair)
    requires cm == Token(COMMENT, "-- comment")
    requires one == Token(integer_literal, "1") && cols == Pair(columns, "1", [one])
    ensures ParseValue([Pair(select_statement, "-- comment\nselect 1", [cm, cols])])
      == Ok(SelectStatement([], K.All, [IntegerLiteral("1")], [], None, None))
  {
    SelectDispatch(Pair(select_statement, "-- comment\nselect 1", [cm, cols]));
    DropFirst(cm, cols);
    SelectOfOne(one, cols);
  }

  lemma {:induction false} DropFirst(cm: Pair, x: Pair)
    requires cm.rule == COMMENT && x.rule != COMMENT
    ensures NonComment([cm, x]) == [x]
  {
    assert [cm, x][1..] == [x];
    assert [x][1..] == [];
  }
}

/** `AstNode`, the tree the parser builds. One constructor per variant of the
    Rust enum, in the same order. Dafny needs one type per field name, so a
    few Rust field names are renamed where two variants use the same name
    with different types (noted at each). */
module Ast {
  import opened Wrappers
  import K = Keywords

  datatype AstNode =
    // Empty
    | Empty
    // Comment
    | Comment(s: string)
    // Select statement
    | SelectStatement(
        common: seq<AstNode>,
        mode: K.SelectMode,
        columns: seq<AstNode>,
        table_exprs: seq<AstNode>,
        where_expr: Option<AstNode>,
        group_by: Option<AstNode>)
    // Rust `op: Union`
    | SelectUnionStatement(left: AstNode, union_op: K.Union, right: AstNode)
    | SelectMode(mode: K.SelectMode)
    | WithClause(identifier: AstNode, columns: seq<AstNode>, query: AstNode)
    | GroupBy(groupings: seq<AstNode>, having: Option<AstNode>)
    // Columns; `alias` is optional as the parser builds it
    | Column(expr: AstNode)
    | AllColumns
    | AllColumnsFrom(schema: AstNode)
    | NamedColumn(expr: AstNode, alias: Option<string>)
    // Identifier. The parts of QualifiedIdentifier, Rust `s`, are `parts` here.
    | Identifier(s: string)
    | QualifiedIdentifier(parts: seq<AstNode>)
    // Literals
    | IntegerLiteral(s: string)
    | DecimalLiteral(s: string)
    | FloatLiteral(s: string)
    | StringLiteral(s: string)
    | BooleanLiteral(s: string)
    | IntervalLiteral(
        interval: AstNode,
        period: K.Interval,
        precision: seq<AstNode>,
        convert_to: Option<K.Interval>,
        convert_precision: Option<AstNode>)
    // Join
    | JoinClause(join_type: AstNode, table_expr: AstNode, constraint: AstNode)
    | InnerJoin
    | LeftOuterJoin
    | RightOuterJoin
    | FullOuterJoin
    | JoinConstraintOn(expr: AstNode)
    | JoinConstraintUsing(columns: seq<AstNode>)
    // Tables
    | NamedTableExpression(name: AstNode, alias: Option<string>)
    // Expressions. The optional scrutinee of CaseExpression, Rust `expr`, is
    // `case_expr` here.
    | SignedExpression(sign: K.Sign, expr: AstNode)
    | Expression(left: AstNode, op: K.Operation, right: AstNode)
    | CaseExpression(case_expr: Option<AstNode>, when_expr: seq<AstNode>, else_expr: Option<AstNode>)
    | IsNullExpression(expr: AstNode, is_null: bool)
    | InExpression(expr: AstNode, exprs: seq<AstNode>, not_in: bool)
    | WhenClause(guard: AstNode, body: AstNode)
    // Data types. The scale of DecimalType, Rust `s`, is `scale` here.
    | BooleanType
    | CharType(n: AstNode)
    | DateType
    | DecimalType(p: AstNode, scale: AstNode)
    | DoubleType
    | TimestampType
    | LocalTimestampType
    | VarcharType(n: AstNode)
    // Function expressions. Rust `string` is `str` here; Rust `mode` of the
    // aggregates is `agg_mode`; Rust `length` of RightFunction is
    // `right_length`; Rust `format` of ToDateFunction is `date_format`.
    | CoalesceFunction(exprs: seq<AstNode>)
    | CastFunction(expr: AstNode, data_type: AstNode)
    | RightFunction(str: AstNode, right_length: AstNode)
    | ReplaceFunction(str: AstNode, search_string: AstNode, replace_string: Option<AstNode>)
    | SubstringFunction(str: AstNode, position: AstNode, length: Option<AstNode>)
    | MaxFunction(agg_mode: AstNode, expr: AstNode)
    | MinFunction(agg_mode: AstNode, expr: AstNode)
    | SumFunction(agg_mode: AstNode, expr: AstNode)
    | ToDateFunction(str: AstNode, date_format: Option<AstNode>)
    | PowerFunction(base: AstNode, exponent: AstNode)
    | ConcatFunction(exprs: seq<AstNode>)
    | CountFunction(agg_mode: AstNode, columns: seq<AstNode>)
    | DateTruncFunction(format: AstNode, datetime: AstNode)
    | MonthsBetweenFunction(datetime1: AstNode, datetime2: AstNode)
    | UnknownFunction(name: AstNode, exprs: seq<AstNode>)
}

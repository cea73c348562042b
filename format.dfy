/** `FormatSql::format`: the minimal re-serialiser over the statement tree of
    the older parser (`SqlStatement` > `Statement` > `SelectStatement` >
    `SetExpression` > `QuerySetExpression`). Only the variants it prints are
    spelled out; every other variant is one `Other…` constructor, and
    formatting it is `unimplemented!`, so every format function requires its
    argument to be `Supported`. Fields the formatter never reads (the
    statement's ctes, order and limit, the query's mode, where and group-by)
    are not modelled. */
module Format {
  import opened Wrappers
  import K = Keywords

  datatype SqlStatement = Statement(statement: Statement) | OtherSqlStatement
  datatype Statement = Select(select: SelectStatement) | OtherStatement
  datatype SelectStatement = SelectStatement(expr: SetExpression)
  datatype SetExpression = Query(query: QuerySetExpression) | OtherSetExpression
  datatype QuerySetExpression = QuerySetExpression(columns: ResultColumns, from: seq<TableExpression>)
  datatype ResultColumns = List(list: seq<ResultColumn>) | All
  datatype ResultColumn = Expr(column: ExprResultColumn) | OtherResultColumn
  datatype ExprResultColumn = ExprResultColumn(expr: Expression, rename: Option<string>)
  datatype Expression = Literal(literal: Literal) | OtherExpression
  datatype Literal = Numeric(num: string) | OtherLiteral
  datatype TableExpression = Named(named: NamedTableExpression) | OtherTableExpression
  datatype NamedTableExpression = NamedTableExpression(name: seq<string>, alias: Option<string>)

  // ---------------------------------------------------------------------
  // What the formatter can print
  // ---------------------------------------------------------------------

  predicate SupportedColumn(c: ResultColumn) {
    c.Expr? && c.column.expr.Literal? && c.column.expr.literal.Numeric?
  }

  predicate SupportedColumns(cs: ResultColumns) {
    cs.List? && forall i :: 0 <= i < |cs.list| ==> SupportedColumn(cs.list[i])
  }

  predicate SupportedQuery(q: QuerySetExpression) {
    SupportedColumns(q.columns) && forall i :: 0 <= i < |q.from| ==> q.from[i].Named?
  }

  predicate Supported(s: SqlStatement) {
    s.Statement? && s.statement.Select? && s.statement.select.expr.Query? &&
    SupportedQuery(s.statement.select.expr.query)
  }

  // ---------------------------------------------------------------------
  // Joining with a single space
  // ---------------------------------------------------------------------

  /** `.join(" ")` on a vector of strings. */
  function JoinSpace(parts: seq<string>): (r: string)
    ensures parts == [] ==> r == ""
    ensures |parts| >= 1 ==> |r| >= |parts[0]| && r[..|parts[0]|] == parts[0]
  {
    if parts == [] then ""
    else if |parts| == 1 then parts[0]
    else parts[0] + " " + JoinSpace(parts[1..])
  }

  predicate NoSpace(s: string) {
    forall i :: 0 <= i < |s| ==> s[i] != ' '
  }

  /** Splitting the joined text at single spaces gives back the parts, as
      long as no part holds a space itself (empty parts included). */
  lemma {:induction false} SplitJoinSpace(parts: seq<string>)
    requires |parts| >= 1 && forall i :: 0 <= i < |parts| ==> NoSpace(parts[i])
    ensures K.SplitSpaces(JoinSpace(parts)) == parts
  {
    if |parts| == 1 {
      K.SplitWordPrefix(parts[0], "");
      assert parts[0] + "" == parts[0];
    } else {
      var rest := JoinSpace(parts[1..]);
      SplitJoinSpace(parts[1..]);
      assert JoinSpace(parts) == parts[0] + (" " + rest);
      K.SplitWordPrefix(parts[0], " " + rest);
      assert (" " + rest)[1..] == rest;
      assert K.SplitSpaces(" " + rest) == [""] + parts[1..];
      assert parts[0] + "" == parts[0];
      assert parts == [parts[0]] + parts[1..];
    }
  }

  /** The joined text is empty exactly when there is nothing to join or one
      empty part. */
  lemma {:induction false} JoinSpaceEmpty(parts: seq<string>)
    ensures JoinSpace(parts) == "" <==> parts == [] || parts == [""]
  {
    if |parts| >= 2 {
      assert |JoinSpace(parts)| >= |parts[0]| + 1;
    }
  }

  // ---------------------------------------------------------------------
  // format
  // ---------------------------------------------------------------------

  /** `Literal::format`: a numeric literal is its raw text. */
  function FormatLiteral(l: Literal): string
    requires l.Numeric?
  {
    l.num
  }

  /** `ResultColumn::format` through `ExprResultColumn::format` and
      `Expression::format`: the column's literal; the rename is not printed. */
  function FormatColumn(c: ResultColumn): string
    requires SupportedColumn(c)
  {
    FormatLiteral(c.column.expr.literal)
  }

  function FormatColumnList(cs: seq<ResultColumn>): seq<string>
    requires forall i :: 0 <= i < |cs| ==> SupportedColumn(cs[i])
  {
    seq(|cs|, i requires 0 <= i < |cs| && SupportedColumn(cs[i]) => FormatColumn(cs[i]))
  }

  /** `ResultColumns::format`: the columns joined by single spaces. */
  function FormatColumns(cs: ResultColumns): string
    requires SupportedColumns(cs)
  {
    JoinSpace(FormatColumnList(cs.list))
  }

  /** `NamedTableExpression::format`: the name parts joined by single
      spaces; the alias is not printed. */
  function FormatNamedTable(t: NamedTableExpression): string {
    JoinSpace(t.name)
  }

  function FormatTableList(ts: seq<TableExpression>): seq<string>
    requires forall i :: 0 <= i < |ts| ==> ts[i].Named?
  {
    seq(|ts|, i requires 0 <= i < |ts| && ts[i].Named? => FormatNamedTable(ts[i].named))
  }

  /** The from items joined by single spaces. */
  function FromText(q: QuerySetExpression): string
    requires forall i :: 0 <= i < |q.from| ==> q.from[i].Named?
  {
    JoinSpace(FormatTableList(q.from))
  }

  /** `QuerySetExpression::format`: the columns, then ` FROM ` and the from
      text unless that text is empty. When the query is readable, splitting
      the output at single spaces gives back the numerals in order, then,
      exactly when there is a table, `FROM` and every part of every table
      name in order. */
  function FormatQuery(q: QuerySetExpression): (r: string)
    requires SupportedQuery(q)
    ensures FromText(q) != "" ==> r == FormatColumns(q.columns) + " FROM " + FromText(q)
    ensures FromText(q) == "" ==> r == FormatColumns(q.columns)
    ensures Readable(q) ==> K.SplitSpaces(r) == Numerals(q.columns.list) + FromWords(q.from)
  {
    var columns := FormatColumns(q.columns);
    var from := FromText(q);
    QueryReadBack(q);
    if |from| > 0 then columns + " FROM " + from else columns
  }

  /** `SqlStatement::format`: `SELECT ` and the query. When the query is
      readable, splitting the output at single spaces gives back `SELECT`,
      the numerals, and `FROM` with the table-name parts when there is a
      table. */
  function FormatSql(s: SqlStatement): (r: string)
    requires Supported(s)
    ensures |r| >= 7 && r[..7] == "SELECT " && r[7..] == FormatQuery(s.statement.select.expr.query)
    ensures var q := s.statement.select.expr.query;
      Readable(q) ==> K.SplitSpaces(r) == ["SELECT"] + Numerals(q.columns.list) + FromWords(q.from)
  {
    var text := FormatQuery(s.statement.select.expr.query);
    SelectWord(text);
    "SELECT " + text
  }

  // ---------------------------------------------------------------------
  // Reading the output back
  // ---------------------------------------------------------------------

  /** The numerals of the columns, read straight off the tree. */
  function Numerals(cs: seq<ResultColumn>): seq<string>
    requires forall i :: 0 <= i < |cs| ==> SupportedColumn(cs[i])
  {
    if cs == [] then []
    else
      assert SupportedColumn(cs[0]);
      [cs[0].column.expr.literal.num] + Numerals(cs[1..])
  }

  /** Every part of every table name, in order. */
  function NameParts(ts: seq<TableExpression>): seq<string>
    requires forall i :: 0 <= i < |ts| ==> ts[i].Named?
  {
    if ts == [] then [] else ts[0].named.name + NameParts(ts[1..])
  }

  /** What a from clause contributes to the words of the output. */
  function FromWords(ts: seq<TableExpression>): seq<string>
    requires forall i :: 0 <= i < |ts| ==> ts[i].Named?
  {
    if ts == [] then [] else ["FROM"] + NameParts(ts)
  }

  /** A table name that reads back: at least one part, each non-empty and
      without a space. */
  predicate ReadableName(name: seq<string>) {
    |name| >= 1 && forall j :: 0 <= j < |name| ==> name[j] != "" && NoSpace(name[j])
  }

  /** A query whose output can be split back into its words: at least one
      column, no numeral holding a space, and every table name readable. */
  predicate Readable(q: QuerySetExpression) {
    SupportedQuery(q) && |q.columns.list| >= 1 &&
    (forall i :: 0 <= i < |q.columns.list| ==> NoSpace(q.columns.list[i].column.expr.literal.num)) &&
    forall i :: 0 <= i < |q.from| ==> ReadableName(q.from[i].named.name)
  }

  /** The keyword is the first word, whatever follows its space. */
  lemma {:induction false} SelectWord(text: string)
    ensures K.SplitSpaces("SELECT " + text) == ["SELECT"] + K.SplitSpaces(text)
  {
    K.SplitWordPrefix("SELECT", " " + text);
    assert (" " + text)[1..] == text;
    var rest := K.SplitSpaces(text);
    assert K.SplitSpaces(" " + text) == [""] + rest;
    assert ([""] + rest)[0] == "" && ([""] + rest)[1..] == rest;
    assert "SELECT" + "" == "SELECT";
    assert "SELECT" + (" " + text) == "SELECT " + text;
  }

  /** Joining two non-empty lists with a space between them is joining
      their concatenation. */
  lemma {:induction false} JoinSpaceAppend(a: seq<string>, b: seq<string>)
    requires |a| >= 1 && |b| >= 1
    ensures JoinSpace(a) + " " + JoinSpace(b) == JoinSpace(a + b)
  {
    if |a| == 1 {
      assert (a + b)[1..] == b;
    } else {
      JoinSpaceAppend(a[1..], b);
      assert (a + b)[1..] == a[1..] + b;
    }
  }

  lemma {:induction false} NumeralsPrinted(cs: seq<ResultColumn>)
    requires forall i :: 0 <= i < |cs| ==> SupportedColumn(cs[i])
    ensures FormatColumnList(cs) == Numerals(cs)
    ensures forall i :: 0 <= i < |cs| ==> Numerals(cs)[i] == cs[i].column.expr.literal.num
  {
    if cs != [] {
      NumeralsPrinted(cs[1..]);
      assert FormatColumnList(cs) == [FormatColumn(cs[0])] + FormatColumnList(cs[1..]);
    }
  }

  /** The table names joined one after another are all their parts joined,
      when no name is empty. */
  lemma {:induction false} NamesPrinted(ts: seq<TableExpression>)
    requires forall i :: 0 <= i < |ts| ==> ts[i].Named? && |ts[i].named.name| >= 1
    ensures |NameParts(ts)| >= |ts|
    ensures ts != [] ==> JoinSpace(FormatTableList(ts)) == JoinSpace(NameParts(ts))
    ensures forall k :: 0 <= k < |NameParts(ts)| ==>
      exists i, j :: 0 <= i < |ts| && 0 <= j < |ts[i].named.name| && NameParts(ts)[k] == ts[i].named.name[j]
  {
    if ts != [] {
      var rest := ts[1..];
      NamesPrinted(rest);
      var first := ts[0].named.name;
      assert FormatTableList(ts) == [JoinSpace(first)] + FormatTableList(rest);
      assert NameParts(ts) == first + NameParts(rest);
      if rest != [] {
        JoinSpaceAppend(first, NameParts(rest));
        assert FormatTableList(ts)[1..] == FormatTableList(rest);
      } else {
        assert NameParts(ts) == first;
      }
      forall k | 0 <= k < |NameParts(ts)|
        ensures exists i, j :: 0 <= i < |ts| && 0 <= j < |ts[i].named.name| && NameParts(ts)[k] == ts[i].named.name[j]
      {
        if k < |first| {
          assert NameParts(ts)[k] == ts[0].named.name[k];
        } else {
          var i, j :| 0 <= i < |rest| && 0 <= j < |rest[i].named.name| && NameParts(rest)[k - |first|] == rest[i].named.name[j];
          assert NameParts(ts)[k] == ts[i + 1].named.name[j];
        }
      }
    }
  }

  /** The numerals of a readable query's columns come back from their
      joined text. */
  lemma {:induction false} ColumnsSplit(q: QuerySetExpression)
    requires Readable(q)
    ensures K.SplitSpaces(FormatColumns(q.columns)) == Numerals(q.columns.list)
    ensures forall k :: 0 <= k < |Numerals(q.columns.list)| ==> NoSpace(Numerals(q.columns.list)[k])
  {
    NumeralsPrinted(q.columns.list);
    SplitJoinSpace(Numerals(q.columns.list));
  }

  /** The from text of a readable query with a table is all the name parts
      joined, and is not empty. */
  lemma {:induction false} TablesJoined(q: QuerySetExpression)
    requires Readable(q) && q.from != []
    ensures FromText(q) == JoinSpace(NameParts(q.from)) && FromText(q) != ""
    ensures |NameParts(q.from)| >= 1
    ensures forall k :: 0 <= k < |NameParts(q.from)| ==> NoSpace(NameParts(q.from)[k])
  {
    var parts := NameParts(q.from);
    NamesPrinted(q.from);
    assert |JoinSpace(parts)| >= |parts[0]| > 0 by {
      assert parts[0] != "";
    }
    forall k | 0 <= k < |parts| ensures NoSpace(parts[k]) {
      var i, j :| 0 <= i < |q.from| && 0 <= j < |q.from[i].named.name| && parts[k] == q.from[i].named.name[j];
      assert ReadableName(q.from[i].named.name);
    }
  }

  /** Two joined lists with ` FROM ` between them split back into the first
      list, `FROM` and the second list. */
  lemma {:induction false} SplitAroundFrom(nums: seq<string>, parts: seq<string>)
    requires |nums| >= 1 && |parts| >= 1
    requires forall k :: 0 <= k < |nums| ==> NoSpace(nums[k])
    requires forall k :: 0 <= k < |parts| ==> NoSpace(parts[k])
    ensures K.SplitSpaces(JoinSpace(nums) + " FROM " + JoinSpace(parts)) == nums + (["FROM"] + parts)
  {
    var tail := ["FROM"] + parts;
    JoinSpaceAppend(nums, tail);
    assert tail[1..] == parts;
    assert JoinSpace(tail) == "FROM " + JoinSpace(parts);
    var words := nums + tail;
    forall k | 0 <= k < |words| ensures NoSpace(words[k]) {
      if k > |nums| {
        assert words[k] == parts[k - |nums| - 1];
      }
    }
    SplitJoinSpace(words);
    assert JoinSpace(nums) + " FROM " + JoinSpace(parts) == JoinSpace(nums) + " " + JoinSpace(tail);
  }

  /** A readable query with a table splits into the numerals, `FROM` and
      the name parts. */
  lemma {:induction false} FromReadBack(q: QuerySetExpression)
    requires Readable(q) && q.from != []
    ensures K.SplitSpaces(FormatColumns(q.columns) + " FROM " + FromText(q)) ==
      Numerals(q.columns.list) + FromWords(q.from)
  {
    ColumnsSplit(q);
    NumeralsPrinted(q.columns.list);
    TablesJoined(q);
    SplitAroundFrom(Numerals(q.columns.list), NameParts(q.from));
  }

  /** The pieces the query's two halves split into. */
  lemma {:induction false} QueryReadBack(q: QuerySetExpression)
    requires SupportedQuery(q)
    ensures Readable(q) ==> (FromText(q) == "" <==> q.from == [])
    ensures Readable(q) && q.from == [] ==>
      K.SplitSpaces(FormatColumns(q.columns)) == Numerals(q.columns.list)
    ensures Readable(q) && q.from != [] ==>
      K.SplitSpaces(FormatColumns(q.columns) + " FROM " + FromText(q)) ==
        Numerals(q.columns.list) + FromWords(q.from)
  {
    if Readable(q) {
      ColumnsSplit(q);
      if q.from == [] {
        assert FormatTableList(q.from) == [];
      } else {
        TablesJoined(q);
        FromReadBack(q);
      }
    }
  }

  // ---------------------------------------------------------------------
  // Properties
  // ---------------------------------------------------------------------

  /** No ` FROM ` is printed exactly when there is no from item, or one named
      table whose name has no part or one empty part. */
  lemma {:induction false} NoFromClause(q: QuerySetExpression)
    requires SupportedQuery(q)
    ensures FormatQuery(q) == FormatColumns(q.columns) <==>
      q.from == [] || (|q.from| == 1 && q.from[0].named.name in {[], [""]})
  {
    var names := FormatTableList(q.from);
    JoinSpaceEmpty(names);
    if |q.from| == 1 {
      JoinSpaceEmpty(q.from[0].named.name);
    }
    if FromText(q) != "" {
      assert |FormatQuery(q)| > |FormatColumns(q.columns)|;
    }
  }

  /** The alias of a named table never reaches the output. */
  lemma {:induction false} AliasNotPrinted(q: QuerySetExpression, i: nat, alias: Option<string>)
    requires SupportedQuery(q) && i < |q.from|
    ensures var t := NamedTableExpression(q.from[i].named.name, alias);
      var q' := q.(from := q.from[i := Named(t)]);
      SupportedQuery(q') && FormatQuery(q') == FormatQuery(q)
  {
    var t := NamedTableExpression(q.from[i].named.name, alias);
    var q' := q.(from := q.from[i := Named(t)]);
    assert FormatTableList(q'.from) == FormatTableList(q.from);
  }

  /** A column's rename never reaches the output either. */
  lemma {:induction false} RenameNotPrinted(q: QuerySetExpression, i: nat, rename: Option<string>)
    requires SupportedQuery(q) && i < |q.columns.list|
    ensures var c := Expr(q.columns.list[i].column.(rename := rename));
      var q' := q.(columns := List(q.columns.list[i := c]));
      SupportedQuery(q') && FormatQuery(q') == FormatQuery(q)
  {
    var c := Expr(q.columns.list[i].column.(rename := rename));
    var q' := q.(columns := List(q.columns.list[i := c]));
    assert FormatColumnList(q'.columns.list) == FormatColumnList(q.columns.list);
  }

  /** The numerals of a query without a from clause can be read back from the
      output by splitting it at single spaces. */
  lemma {:induction false} ColumnsReadBack(q: QuerySetExpression)
    requires SupportedQuery(q) && q.from == [] && |q.columns.list| >= 1
    requires forall i :: 0 <= i < |q.columns.list| ==> NoSpace(FormatColumn(q.columns.list[i]))
    ensures K.SplitSpaces(FormatQuery(q)) == FormatColumnList(q.columns.list)
    ensures forall i :: 0 <= i < |q.columns.list| ==>
      K.SplitSpaces(FormatQuery(q))[i] == q.columns.list[i].column.expr.literal.num
  {
    assert FormatTableList(q.from) == [];
    SplitJoinSpace(FormatColumnList(q.columns.list));
  }

  /** The query of `select 1 from dual`. */
  function DualQuery(): QuerySetExpression {
    QuerySetExpression(
      List([Expr(ExprResultColumn(Literal(Numeric("1")), None))]),
      [Named(NamedTableExpression(["dual"], None))])
  }

  lemma {:induction false} DualQueryText()
    ensures SupportedQuery(DualQuery()) && FormatQuery(DualQuery()) == "1 FROM dual"
  {
    var q := DualQuery();
    assert FormatColumns(q.columns) == "1" by {
      NumeralsPrinted(q.columns.list);
      assert Numerals(q.columns.list) == ["1"];
    }
    assert FromText(q) == "dual" by {
      assert FormatTableList(q.from) == ["dual"];
    }
  }

  /** `select 1 from dual`, re-printed. */
  lemma {:induction false} SelectOneFromDual()
    ensures FormatSql(Statement(Select(SelectStatement(Query(DualQuery()))))) == "SELECT 1 FROM dual"
  {
    DualQueryText();
    var text := FormatQuery(DualQuery());
    assert FormatSql(Statement(Select(SelectStatement(Query(DualQuery()))))) == "SELECT " + text;
  }
}

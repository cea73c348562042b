/** The pest match tree the parser consumes: each matched pair carries the
    grammar rule that matched it, the matched text and its child pairs in
    source order. Only the rule tags the parser inspects are named; every
    other grammar rule is `other`. */
module Pest {
  import opened Wrappers

  datatype Rule =
    // columns
    | all_columns | column | all_columns_from | named_column | columns
    // identifiers
    | identifier | qualified_identifier
    // literals
    | integer_literal | decimal_literal | float_literal | string_literal | boolean_literal
    | interval_year_to_month | interval_day_to_second
    | interval_precision | interval_precision_with_fractional
    | interval_year | interval_month | interval_day_conversion
    // select statement
    | select_statement | ctes | select_mode | table_expressions | where_clause | group_by
    | named_table_expression
    // expressions
    | signed_expression | expression | is_null_expression | negate
    | case_clause | when_clause | else_clause | case_expression
    // joins
    | join_constraint_on | join_constraint_using | join_clause
    | inner_join_type | left_outer_join_type | right_outer_join_type | full_outer_join_type
    // functions
    | coalesce_function | replace_function | substring_function | to_date_function
    | right_function | max_function | min_function | sum_function | power_function
    | count_function | concat_function | cast_function | date_trunc_function
    | months_between_function | unknown_function
    // with clause
    | with_clause
    // data types
    | boolean_type | char_type | varchar_type | date_type | double_type
    | timestamp_type | local_timestamp_type | decimal_type
    // comments
    | COMMENT
    // infix operators
    | operation_or | operation_and
    | operation_equal | operation_not_equal | operation_greater_or_equal
    | operation_greater_than | operation_less_or_equal | operation_less_than
    | operation_add | operation_subtract | operation_concat
    | operation_multiply | operation_divide
    // any rule of the grammar not listed above
    | other(name: string)

  datatype Pair = Pair(rule: Rule, text: string, inner: seq<Pair>)

  /** Number of pairs in a tree; the parser's recursion descends in it. */
  function Size(p: Pair): (r: nat)
    ensures r > SizeAll(p.inner)
    decreases p
  {
    1 + SizeAll(p.inner)
  }

  function SizeAll(ps: seq<Pair>): (r: nat)
    decreases ps
  {
    if ps == [] then 0 else Size(ps[0]) + SizeAll(ps[1..])
  }

  /** Each pair of a run is no larger than the whole run. */
  lemma {:induction false} SizeAllBounds(ps: seq<Pair>, i: nat)
    requires i < |ps|
    ensures Size(ps[i]) <= SizeAll(ps)
    decreases ps
  {
    if i > 0 {
      SizeAllBounds(ps[1..], i - 1);
    }
  }

  lemma {:induction false} SizeAllSingle(p: Pair)
    ensures SizeAll([p]) == Size(p)
  {
    assert [p][1..] == [];
  }

  /** The pairs of `ps` that are not comments, in order (the filter pest
      callers apply before reading children). */
  function NonComment(ps: seq<Pair>): (r: seq<Pair>)
    ensures SizeAll(r) <= SizeAll(ps)
  {
    if ps == [] then []
    else if ps[0].rule == COMMENT then NonComment(ps[1..])
    else [ps[0]] + NonComment(ps[1..])
  }

  /** What is left holds no comment, and every pair of `ps` that is not a
      comment. */
  lemma {:induction false} NonCommentKeeps(ps: seq<Pair>)
    ensures forall i :: 0 <= i < |NonComment(ps)| ==> NonComment(ps)[i].rule != COMMENT
    ensures forall p :: p in NonComment(ps) <==> p in ps && p.rule != COMMENT
  {
    if ps != [] {
      NonCommentKeeps(ps[1..]);
      assert ps == [ps[0]] + ps[1..];
    }
  }

  /** The pairs of `ps` matched by `rule`, in order. */
  function WithRule(ps: seq<Pair>, rule: Rule): (r: seq<Pair>)
    ensures SizeAll(r) <= SizeAll(ps)
    ensures forall i :: 0 <= i < |r| ==> r[i].rule == rule
    ensures forall p :: p in r <==> p in ps && p.rule == rule
  {
    if ps == [] then []
    else if ps[0].rule == rule then [ps[0]] + WithRule(ps[1..], rule)
    else WithRule(ps[1..], rule)
  }

  /** Index of the first pair whose rule is in `rules` (Rust's `find`). */
  function Find(ps: seq<Pair>, rules: set<Rule>): (r: Option<nat>)
    ensures r.Some? ==> r.value < |ps| && ps[r.value].rule in rules
  {
    if ps == [] then None
    else if ps[0].rule in rules then Some(0)
    else match Find(ps[1..], rules)
      case None => None
      case Some(i) => Some(i + 1)
  }

  /** `Find` returns the first match, and nothing only when no pair matches. */
  lemma {:induction false} FindFirst(ps: seq<Pair>, rules: set<Rule>)
    ensures Find(ps, rules).Some? ==> forall j :: 0 <= j < Find(ps, rules).value ==> ps[j].rule !in rules
    ensures Find(ps, rules).None? ==> forall j :: 0 <= j < |ps| ==> ps[j].rule !in rules
  {
    if ps != [] && ps[0].rule !in rules {
      FindFirst(ps[1..], rules);
      assert forall j :: 1 <= j < |ps| ==> ps[j] == ps[1..][j - 1];
    }
  }

  lemma {:induction false} NonCommentAppend(a: seq<Pair>, b: seq<Pair>)
    ensures NonComment(a + b) == NonComment(a) + NonComment(b)
  {
    if a == [] {
      assert a + b == b;
    } else {
      assert (a + b)[1..] == a[1..] + b;
      NonCommentAppend(a[1..], b);
    }
  }

  lemma {:induction false} NonCommentIdempotent(ps: seq<Pair>)
    ensures NonComment(NonComment(ps)) == NonComment(ps)
  {
    if ps != [] {
      NonCommentIdempotent(ps[1..]);
      if ps[0].rule != COMMENT {
        assert ([ps[0]] + NonComment(ps[1..]))[1..] == NonComment(ps[1..]);
      }
    }
  }

  /** Dropping a comment anywhere among `ps` leaves what callers read unchanged. */
  lemma {:induction false} CommentInvisible(a: seq<Pair>, c: Pair, b: seq<Pair>)
    requires c.rule == COMMENT
    ensures NonComment(a + [c] + b) == NonComment(a + b)
  {
    assert NonComment([c]) == [] by {
      assert [c][1..] == [];
    }
    calc {
      NonComment(a + [c] + b);
      { NonCommentAppend(a + [c], b); }
      NonComment(a + [c]) + NonComment(b);
      { NonCommentAppend(a, [c]); }
      (NonComment(a) + NonComment([c])) + NonComment(b);
      { assert NonComment(a) + [] == NonComment(a); }
      NonComment(a) + NonComment(b);
      { NonCommentAppend(a, b); }
      NonComment(a + b);
    }
  }
}

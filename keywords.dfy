/** The keyword enumerations of the AST (`Sign`, `SelectMode`, `Interval`,
    `Union`, `Operation`) and their `from_str` mappers. Each mapper returns
    `None` where the Rust one hits `unreachable!`. */
module Keywords {
  import opened Wrappers

  datatype Sign = Positive | Negative

  datatype SelectMode = All | Distinct

  datatype Interval = Year | Month | Day | Hour | Minute | Second

  datatype Union = UnionAll | Intersect | Minus | Except

  datatype Operation =
    | Multiply | Divide | Add | Subtract | Concat
    | And | Or
    | Equal | NotEqual | GreaterThan | GreaterOrEqualThan | LessThan | LessOrEqualThan

  // ------------------------------------------------------------------
  // Upper-casing (ASCII letters only)
  // ------------------------------------------------------------------

  predicate IsLower(c: char) {
    'a' <= c <= 'z'
  }

  function UpperChar(c: char): char {
    if IsLower(c) then (c as int - 32) as char else c
  }

  /** `s.to_uppercase()`, restricted to the ASCII letters. */
  function Upper(s: string): (r: string)
    ensures |r| == |s|
    ensures forall i :: 0 <= i < |s| ==> r[i] == UpperChar(s[i])
  {
    seq(|s|, i requires 0 <= i < |s| => UpperChar(s[i]))
  }

  /** What upper-casing does: no lower-case letter is left, each one becomes
      its own capital in place, every other character is kept, and a string
      is its own upper-cased form exactly when it holds no lower-case
      letter. */
  lemma {:induction false} UpperLetters(s: string)
    ensures forall i :: 0 <= i < |s| ==> !IsLower(Upper(s)[i])
    ensures forall i :: 0 <= i < |s| && IsLower(s[i]) ==>
      'A' <= Upper(s)[i] <= 'Z' && Upper(s)[i] as int + 32 == s[i] as int
    ensures forall i :: 0 <= i < |s| && !IsLower(s[i]) ==> Upper(s)[i] == s[i]
    ensures Upper(s) == s <==> forall i :: 0 <= i < |s| ==> !IsLower(s[i])
  {
    if Upper(s) == s {
      forall i | 0 <= i < |s| ensures !IsLower(s[i]) {
        assert Upper(s)[i] == s[i];
      }
    }
  }

  lemma {:induction false} UpperIdempotent(s: string)
    ensures Upper(Upper(s)) == Upper(s)
  {
    assert forall i :: 0 <= i < |s| ==> Upper(Upper(s))[i] == Upper(s)[i];
  }

  // ------------------------------------------------------------------
  // Sign
  // ------------------------------------------------------------------

  /** The symbol a sign is written with. */
  function SignSymbol(sign: Sign): string {
    match sign
    case Positive => "+"
    case Negative => "-"
  }

  /** `Sign::from_str`: exact match, no upper-casing. */
  function SignFromStr(s: string): (r: Option<Sign>)
    ensures r.Some? ==> SignSymbol(r.value) == s
  {
    if s == "+" then Some(Positive)
    else if s == "-" then Some(Negative)
    else None
  }

  /** Only "+" and "-" are signs, each naming its own variant. */
  lemma {:induction false} SignFromStrExactly(s: string, sign: Sign)
    ensures SignFromStr(s) == Some(sign) <==> s == SignSymbol(sign)
  {
  }

  // ------------------------------------------------------------------
  // SelectMode
  // ------------------------------------------------------------------

  function SelectModeKeyword(mode: SelectMode): string {
    match mode
    case All => "ALL"
    case Distinct => "DISTINCT"
  }

  /** `SelectMode::from_str`: case-insensitive ALL or DISTINCT. */
  function SelectModeFromStr(s: string): (r: Option<SelectMode>)
    ensures r.Some? ==> Upper(s) == SelectModeKeyword(r.value)
  {
    var u := Upper(s);
    if u == "DISTINCT" then Some(Distinct)
    else if u == "ALL" then Some(All)
    else None
  }

  /** A string names a mode exactly when its upper-cased form is that
      mode's keyword; anything else fails. */
  lemma {:induction false} SelectModeFromStrExactly(s: string, mode: SelectMode)
    ensures SelectModeFromStr(s) == Some(mode) <==> Upper(s) == SelectModeKeyword(mode)
  {
  }

  // ------------------------------------------------------------------
  // Interval
  // ------------------------------------------------------------------

  function IntervalKeyword(period: Interval): string {
    match period
    case Year => "YEAR"
    case Month => "MONTH"
    case Day => "DAY"
    case Hour => "HOUR"
    case Minute => "MINUTE"
    case Second => "SECOND"
  }

  /** `Interval::from_str`: the six period keywords, case-insensitively. */
  function IntervalFromStr(s: string): (r: Option<Interval>)
    ensures r.Some? ==> Upper(s) == IntervalKeyword(r.value)
  {
    match Upper(s)
    case "YEAR" => Some(Year)
    case "MONTH" => Some(Month)
    case "DAY" => Some(Day)
    case "HOUR" => Some(Hour)
    case "MINUTE" => Some(Minute)
    case "SECOND" => Some(Second)
    case _ => None
  }

  /** Each period is reached from exactly its own keyword. */
  lemma {:induction false} IntervalFromStrExactly(s: string, period: Interval)
    ensures IntervalFromStr(s) == Some(period) <==> Upper(s) == IntervalKeyword(period)
  {
  }

  // ------------------------------------------------------------------
  // Union
  // ------------------------------------------------------------------

  /** `s.split(' ')`: the pieces between single spaces, empty ones included. */
  function SplitSpaces(s: string): (r: seq<string>)
    ensures |r| >= 1
  {
    if s == [] then [""]
    else
      var rest := SplitSpaces(s[1..]);
      if s[0] == ' ' then [""] + rest
      else [[s[0]] + rest[0]] + rest[1..]
  }

  /** `.filter(|v| !v.is_empty())` */
  function NonEmpty(pieces: seq<string>): (r: seq<string>)
    ensures forall i :: 0 <= i < |r| ==> r[i] != []
  {
    if pieces == [] then []
    else if pieces[0] == [] then NonEmpty(pieces[1..])
    else [pieces[0]] + NonEmpty(pieces[1..])
  }

  /** The words of `s`: its pieces between runs of spaces. */
  function Words(s: string): seq<string> {
    NonEmpty(SplitSpaces(s))
  }

  function UnionKeyword(op: Union): string {
    match op
    case UnionAll => "UNION ALL"
    case Intersect => "INTERSECT"
    case Minus => "MINUS"
    case Except => "EXCEPT"
  }

  /** `Union::from_str`: matches the upper-cased words of `s`. */
  function UnionFromStr(s: string): (r: Option<Union>)
    ensures r == Some(UnionAll) <==> Words(Upper(s)) in {["UNION", "ALL"], ["UNION"]}
    ensures r == Some(Intersect) <==> Words(Upper(s)) == ["INTERSECT"]
    ensures r == Some(Minus) <==> Words(Upper(s)) == ["MINUS"]
    ensures r == Some(Except) <==> Words(Upper(s)) == ["EXCEPT"]
  {
    var words := Words(Upper(s));
    if words == ["UNION", "ALL"] || words == ["UNION"] then Some(UnionAll)
    else if words == ["INTERSECT"] then Some(Intersect)
    else if words == ["MINUS"] then Some(Minus)
    else if words == ["EXCEPT"] then Some(Except)
    else None
  }

  function Spaces(n: nat): (r: string)
    ensures |r| == n && forall i :: 0 <= i < n ==> r[i] == ' '
  {
    if n == 0 then "" else " " + Spaces(n - 1)
  }

  /** A word without spaces glues onto the first piece of what follows it. */
  lemma {:induction false} SplitWordPrefix(w: string, t: string)
    requires forall i :: 0 <= i < |w| ==> w[i] != ' '
    ensures SplitSpaces(w + t) == [w + SplitSpaces(t)[0]] + SplitSpaces(t)[1..]
  {
    var st := SplitSpaces(t);
    if w == [] {
      assert w + t == t;
      assert w + st[0] == st[0];
      assert st == [st[0]] + st[1..];
    } else {
      var s := w + t;
      assert s[0] == w[0];
      assert s[1..] == w[1..] + t;
      SplitWordPrefix(w[1..], t);
      var rest := SplitSpaces(s[1..]);
      assert rest == [w[1..] + st[0]] + st[1..];
      assert rest[0] == w[1..] + st[0];
      assert rest[1..] == st[1..];
      assert SplitSpaces(s) == [[s[0]] + rest[0]] + rest[1..];
      assert [w[0]] + (w[1..] + st[0]) == w + st[0];
    }
  }

  lemma {:induction false} NonEmptyAppend(a: seq<string>, b: seq<string>)
    ensures NonEmpty(a + b) == NonEmpty(a) + NonEmpty(b)
  {
    if a == [] {
      assert a + b == b;
    } else {
      assert (a + b)[0] == a[0];
      assert (a + b)[1..] == a[1..] + b;
      NonEmptyAppend(a[1..], b);
    }
  }

  lemma {:induction false} WordsOfSpaces(n: nat)
    ensures Words(Spaces(n)) == []
  {
    if n > 0 {
      assert Spaces(n)[0] == ' ';
      assert Spaces(n)[1..] == Spaces(n - 1);
      WordsOfSpaces(n - 1);
      var rest := SplitSpaces(Spaces(n - 1));
      assert SplitSpaces(Spaces(n)) == [""] + rest;
      assert ([""] + rest)[1..] == rest;
    }
  }

  /** Leading spaces add no word. */
  lemma {:induction false} WordsAfterSpaces(n: nat, t: string)
    ensures Words(Spaces(n) + t) == Words(t)
  {
    if n == 0 {
      assert Spaces(n) + t == t;
    } else {
      var s := Spaces(n) + t;
      assert s[0] == ' ';
      assert s[1..] == Spaces(n - 1) + t;
      WordsAfterSpaces(n - 1, t);
      assert SplitSpaces(s) == [""] + SplitSpaces(s[1..]);
    }
  }

  /** A non-empty word followed by at least one space, then `t`, contributes
      exactly itself. */
  lemma {:induction false} WordThenSpaces(w: string, n: nat, t: string)
    requires w != [] && forall i :: 0 <= i < |w| ==> w[i] != ' '
    ensures Words(w + (Spaces(n + 1) + t)) == [w] + Words(Spaces(n) + t)
  {
    var tail := Spaces(n + 1) + t;
    SplitWordPrefix(w, tail);
    assert tail[0] == ' ';
    assert tail[1..] == Spaces(n) + t;
    var rest := SplitSpaces(Spaces(n) + t);
    assert SplitSpaces(tail) == [""] + rest;
    assert w + "" == w;
    assert SplitSpaces(w + tail) == [w] + rest;
    NonEmptyAppend([w], rest);
  }

  /** A word at the end, followed only by spaces. */
  lemma {:induction false} WordAtEnd(w: string, n: nat)
    requires w != [] && forall i :: 0 <= i < |w| ==> w[i] != ' '
    ensures Words(w + Spaces(n)) == [w]
  {
    if n == 0 {
      assert w + Spaces(n) == w + "";
      SplitWordPrefix(w, "");
      assert w + "" == w;
      assert SplitSpaces("") == [""];
      assert SplitSpaces(w + "") == [w];
      NonEmptyAppend([w], []);
      assert [w] + [] == [w];
    } else {
      WordThenSpaces(w, n - 1, "");
      assert w + (Spaces(n - 1 + 1) + "") == w + Spaces(n);
      assert Spaces(n - 1) + "" == Spaces(n - 1);
      WordsOfSpaces(n - 1);
    }
  }

  /** The words of a spaced-out "UNION ALL". */
  lemma {:induction false} WordsOfSpacedUnionAll(lead: nat, gap: nat, trail: nat)
    ensures Words(Spaces(lead) + "UNION" + Spaces(gap + 1) + "ALL" + Spaces(trail)) == ["UNION", "ALL"]
  {
    var last := "ALL" + Spaces(trail);
    assert Spaces(lead) + "UNION" + Spaces(gap + 1) + "ALL" + Spaces(trail)
        == Spaces(lead) + ("UNION" + (Spaces(gap + 1) + last));
    WordsAfterSpaces(lead, "UNION" + (Spaces(gap + 1) + last));
    WordThenSpaces("UNION", gap, last);
    WordsAfterSpaces(gap, last);
    WordAtEnd("ALL", trail);
  }

  lemma {:induction false} UpperSpaces(n: nat)
    ensures Upper(Spaces(n)) == Spaces(n)
  {
  }

  /** "UNION" and "UNION ALL" both give `UnionAll`, in any letter case and
      with any number of spaces around and between the words. */
  lemma {:induction false} UnionIgnoresSpacing(lead: nat, gap: nat, trail: nat)
    ensures UnionFromStr(Spaces(lead) + "union" + Spaces(gap + 1) + "all" + Spaces(trail)) == Some(UnionAll)
    ensures UnionFromStr(Spaces(lead) + "Union" + Spaces(trail)) == Some(UnionAll)
  {
    var s := Spaces(lead) + "union" + Spaces(gap + 1) + "all" + Spaces(trail);
    var u := Spaces(lead) + "UNION" + Spaces(gap + 1) + "ALL" + Spaces(trail);
    assert Upper(s) == u by {
      UpperSpaces(lead);
      UpperSpaces(gap + 1);
      UpperSpaces(trail);
      assert forall i :: 0 <= i < |s| ==> Upper(s)[i] == u[i];
    }
    WordsOfSpacedUnionAll(lead, gap, trail);

    var s2 := Spaces(lead) + "Union" + Spaces(trail);
    var u2 := Spaces(lead) + "UNION" + Spaces(trail);
    assert Upper(s2) == u2 by {
      UpperSpaces(lead);
      UpperSpaces(trail);
      assert forall i :: 0 <= i < |s2| ==> Upper(s2)[i] == u2[i];
    }
    assert u2 == Spaces(lead) + ("UNION" + Spaces(trail));
    WordsAfterSpaces(lead, "UNION" + Spaces(trail));
    WordAtEnd("UNION", trail);
  }

  /** Each set operator is reached from its own keyword. */
  lemma {:induction false} UnionKeywordRoundTrip(op: Union)
    ensures UnionFromStr(UnionKeyword(op)) == Some(op)
  {
    var k := UnionKeyword(op);
    assert Upper(k) == k;
    match op
    case UnionAll =>
      WordsOfSpacedUnionAll(0, 0, 0);
      assert Spaces(0) + "UNION" + Spaces(1) + "ALL" + Spaces(0) == k;
    case Intersect =>
      WordAtEnd(k, 0);
      assert k + Spaces(0) == k;
    case Minus =>
      WordAtEnd(k, 0);
      assert k + Spaces(0) == k;
    case Except =>
      WordAtEnd(k, 0);
      assert k + Spaces(0) == k;
  }

  // ------------------------------------------------------------------
  // Operation
  // ------------------------------------------------------------------

  /** The symbol (or keyword) each binary operation is written with. */
  function OperationSymbol(op: Operation): string {
    match op
    case Multiply => "*"
    case Divide => "/"
    case Add => "+"
    case Subtract => "-"
    case Concat => "||"
    case And => "AND"
    case Or => "OR"
    case Equal => "="
    case NotEqual => "!="
    case GreaterThan => ">"
    case GreaterOrEqualThan => ">="
    case LessThan => "<"
    case LessOrEqualThan => "<="
  }

  /** `Operation::from_str`: the thirteen operator symbols, upper-cased first. */
  function OperationFromStr(s: string): (r: Option<Operation>)
    ensures r.Some? ==> Upper(s) == OperationSymbol(r.value)
  {
    match Upper(s)
    case "*" => Some(Multiply)
    case "/" => Some(Divide)
    case "+" => Some(Add)
    case "-" => Some(Subtract)
    case "||" => Some(Concat)
    case "AND" => Some(And)
    case "OR" => Some(Or)
    case "=" => Some(Equal)
    case "!=" => Some(NotEqual)
    case ">" => Some(GreaterThan)
    case ">=" => Some(GreaterOrEqualThan)
    case "<" => Some(LessThan)
    case "<=" => Some(LessOrEqualThan)
    case _ => None
  }

  /** An operation is recognised exactly from its own symbol, and the
      thirteen symbols are pairwise distinct. */
  lemma {:induction false} OperationFromStrExactly(s: string, op: Operation)
    ensures OperationFromStr(s) == Some(op) <==> Upper(s) == OperationSymbol(op)
  {
  }

  lemma {:induction false} OperationSymbolsDistinct(op1: Operation, op2: Operation)
    ensures OperationSymbol(op1) == OperationSymbol(op2) ==> op1 == op2
  {
  }

  // ------------------------------------------------------------------
  // Case-insensitivity
  // ------------------------------------------------------------------

  /** Every mapper that upper-cases its input gives the same answer for a
      string and for its upper-cased form. */
  lemma {:induction false} SelectModeCaseInsensitive(s: string)
    ensures SelectModeFromStr(Upper(s)) == SelectModeFromStr(s)
  {
    UpperIdempotent(s);
  }

  lemma {:induction false} IntervalCaseInsensitive(s: string)
    ensures IntervalFromStr(Upper(s)) == IntervalFromStr(s)
  {
    UpperIdempotent(s);
  }

  lemma {:induction false} UnionCaseInsensitive(s: string)
    ensures UnionFromStr(Upper(s)) == UnionFromStr(s)
  {
    UpperIdempotent(s);
  }

  lemma {:induction false} OperationCaseInsensitive(s: string)
    ensures OperationFromStr(Upper(s)) == OperationFromStr(s)
  {
    UpperIdempotent(s);
  }
}

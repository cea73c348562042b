/** Operator-precedence climbing as pest's `PrecClimber` performs it, over
    the precedences of a flat run of items. Precedence 0 marks an item that
    is not an operator; operators are numbered from 1 (loosest) upwards and
    are all left-associative. The climber decides only the shape of the
    tree, as positions into the run; the parser then builds nodes from it.

    `Outer` is the outer loop of `climb_rec`: while the next item is an
    operator binding at least `minPrec`, consume it and the operand after
    it, let `Inner` extend that operand, and fold. `Inner` is the inner loop:
    while the next operator binds tighter than the one just consumed, climb
    again from the current right operand at the tighter precedence. Both
    return the tree and the index of the first item not consumed. */
module Climber {
  import opened Wrappers

  datatype Shape = Leaf(pos: nat) | Node(left: Shape, op: nat, right: Shape)

  /** Every position in `s` is below `n`. */
  predicate Below(s: Shape, n: nat) {
    match s
    case Leaf(p) => p < n
    case Node(l, o, r) => Below(l, n) && o < n && Below(r, n)
  }

  lemma {:induction false} BelowMono(s: Shape, m: nat, n: nat)
    requires Below(s, m) && m <= n
    ensures Below(s, n)
  {
    match s
    case Leaf(_) =>
    case Node(l, _, r) =>
      BelowMono(l, m, n);
      BelowMono(r, m, n);
  }

  function Outer(prec: seq<nat>, lhs: Shape, minPrec: nat, pos: nat): (r: Outcome<(Shape, nat)>)
    requires pos <= |prec| && Below(lhs, pos)
    ensures r.Ok? ==> pos <= r.value.1 <= |prec| && Below(r.value.0, r.value.1)
    ensures r.Ok? && pos < |prec| && prec[pos] > 0 && prec[pos] >= minPrec ==> r.value.1 > pos
    decreases |prec| - pos, 0
  {
    if pos == |prec| || prec[pos] == 0 || prec[pos] < minPrec then Ok((lhs, pos))
    else if pos + 1 == |prec| then Panic  // an operator must be followed by an operand
    else
      match Inner(prec, Leaf(pos + 1), prec[pos], pos + 2)
      case Panic => Panic
      case Ok((rhs, q)) =>
        BelowMono(lhs, pos, q);
        Outer(prec, Node(lhs, pos, rhs), minPrec, q)
  }

  function Inner(prec: seq<nat>, rhs: Shape, opPrec: nat, pos: nat): (r: Outcome<(Shape, nat)>)
    requires pos <= |prec| && Below(rhs, pos)
    ensures r.Ok? ==> pos <= r.value.1 <= |prec| && Below(r.value.0, r.value.1)
    decreases |prec| - pos, 1
  {
    if pos < |prec| && prec[pos] > 0 && prec[pos] > opPrec then
      match Outer(prec, rhs, prec[pos], pos)
      case Panic => Panic
      case Ok((rhs', q)) => Inner(prec, rhs', opPrec, q)
    else Ok((rhs, pos))
  }

  /** `climb`: the first item is an operand, then climbing starts at
      precedence 0. */
  function Climb(prec: seq<nat>): (r: Outcome<(Shape, nat)>)
    ensures r.Ok? ==> 1 <= r.value.1 <= |prec| && Below(r.value.0, r.value.1)
    ensures |prec| == 0 ==> r.Panic?
    ensures |prec| >= 1 && (|prec| == 1 || prec[1] == 0) ==> r == Ok((Leaf(0), 1))
    ensures |prec| == 2 && prec[1] > 0 ==> r.Panic?
  {
    if prec == [] then Panic else Outer(prec, Leaf(0), 0, 1)
  }

  // ---------------------------------------------------------------------
  // What the climber builds
  // ---------------------------------------------------------------------

  /** Positions of a shape read left to right. */
  function InOrder(s: Shape): (r: seq<nat>)
    ensures |r| % 2 == 1
  {
    match s
    case Leaf(p) => [p]
    case Node(l, o, r) => InOrder(l) + [o] + InOrder(r)
  }

  function Range(lo: nat, hi: nat): (r: seq<nat>)
    requires lo <= hi
    ensures |r| == hi - lo
    ensures forall i :: 0 <= i < |r| ==> r[i] == lo + i
    ensures forall i :: i in r <==> lo <= i < hi
  {
    var r := seq(hi - lo, i requires 0 <= i < hi - lo => lo + i);
    assert forall i :: lo <= i < hi ==> i in r by {
      forall i | lo <= i < hi
        ensures i in r
      {
        assert r[i - lo] == i;
      }
    }
    r
  }

  /** A well-formed run: operands at even positions, operators at odd ones,
      beginning and ending with an operand. */
  predicate Alternating(prec: seq<nat>) {
    |prec| % 2 == 1 && forall i :: 0 <= i < |prec| ==> (prec[i] == 0 <==> i % 2 == 0)
  }

  /** The tree a left-associative precedence table prescribes: leaves are
      operands, nodes operators; a left child binds at least as tightly as
      its parent and a right child strictly more tightly. */
  predicate WellNested(prec: seq<nat>, s: Shape) {
    match s
    case Leaf(p) => p < |prec| && prec[p] == 0
    case Node(l, o, r) =>
      o < |prec| && prec[o] > 0 &&
      WellNested(prec, l) && WellNested(prec, r) &&
      (l.Node? ==> prec[l.op] >= prec[o]) &&
      (r.Node? ==> prec[r.op] > prec[o])
  }

  /** Every right child is a leaf: `((a op b) op c) op d`. */
  predicate LeftComb(s: Shape) {
    match s
    case Leaf(_) => true
    case Node(l, _, r) => r.Leaf? && LeftComb(l)
  }

  lemma {:induction false} RangeSplit(lo: nat, m: nat, hi: nat)
    requires lo <= m < hi
    ensures Range(lo, m) + [m] + Range(m + 1, hi) == Range(lo, hi)
  {
    var a := Range(lo, m) + [m] + Range(m + 1, hi);
    assert |a| == hi - lo;
    forall i | 0 <= i < hi - lo
      ensures a[i] == lo + i
    {
      if i < m - lo {
      } else if i == m - lo {
      } else {
        assert a[i] == Range(m + 1, hi)[i - (m - lo) - 1];
      }
    }
  }

  lemma {:induction false} OuterCorrect(prec: seq<nat>, lhs: Shape, minPrec: nat, pos: nat, lo: nat)
    requires Alternating(prec)
    requires pos % 2 == 1 && pos <= |prec| && lo <= pos && Below(lhs, pos)
    requires InOrder(lhs) == Range(lo, pos) && WellNested(prec, lhs)
    requires lhs.Leaf? || pos == |prec| || prec[pos] <= prec[lhs.op]
    ensures Outer(prec, lhs, minPrec, pos).Ok?
    ensures var (s, q) := Outer(prec, lhs, minPrec, pos).value;
      q % 2 == 1 && lo <= q && InOrder(s) == Range(lo, q) && WellNested(prec, s) &&
      (q == |prec| || prec[q] < minPrec) &&
      (s == lhs || (s.Node? && prec[s.op] >= minPrec))
    decreases |prec| - pos, 0
  {
    if pos == |prec| || prec[pos] == 0 || prec[pos] < minPrec {
    } else {
      assert pos + 1 < |prec|;
      assert InOrder(Leaf(pos + 1)) == Range(pos + 1, pos + 2);
      InnerCorrect(prec, Leaf(pos + 1), prec[pos], pos + 2, pos + 1);
      var (rhs, q) := Inner(prec, Leaf(pos + 1), prec[pos], pos + 2).value;
      OuterFold(prec, lhs, pos, lo, rhs, q);
      OuterCorrect(prec, Node(lhs, pos, rhs), minPrec, q, lo);
      OuterUnfold(prec, lhs, minPrec, pos, rhs, q);
    }
  }

  /** One turn of the outer loop, when the inner loop succeeds. */
  lemma {:induction false} OuterUnfold(prec: seq<nat>, lhs: Shape, minPrec: nat, pos: nat, rhs: Shape, q: nat)
    requires pos + 1 < |prec| && Below(lhs, pos) && prec[pos] > 0 && prec[pos] >= minPrec
    requires Inner(prec, Leaf(pos + 1), prec[pos], pos + 2) == Ok((rhs, q))
    ensures pos < q && Below(Node(lhs, pos, rhs), q)
    ensures Outer(prec, lhs, minPrec, pos) == Outer(prec, Node(lhs, pos, rhs), minPrec, q)
  {
    BelowMono(lhs, pos, q);
  }

  /** Folding the operator at `pos` over the left tree and the right tree
      the inner loop built keeps the run in order and well nested. */
  lemma {:induction false} OuterFold(prec: seq<nat>, lhs: Shape, pos: nat, lo: nat, rhs: Shape, q: nat)
    requires pos < q <= |prec| && lo <= pos && prec[pos] > 0
    requires Below(lhs, pos) && InOrder(lhs) == Range(lo, pos) && WellNested(prec, lhs)
    requires lhs.Leaf? || prec[pos] <= prec[lhs.op]
    requires Below(rhs, q) && InOrder(rhs) == Range(pos + 1, q) && WellNested(prec, rhs)
    requires rhs.Leaf? || prec[rhs.op] > prec[pos]
    requires q == |prec| || prec[q] <= prec[pos]
    ensures Below(Node(lhs, pos, rhs), q) && InOrder(Node(lhs, pos, rhs)) == Range(lo, q)
    ensures WellNested(prec, Node(lhs, pos, rhs))
  {
    RangeSplit(lo, pos, q);
    BelowMono(lhs, pos, q);
  }

  lemma {:induction false} InnerCorrect(prec: seq<nat>, rhs: Shape, opPrec: nat, pos: nat, lo: nat)
    requires Alternating(prec)
    requires pos % 2 == 1 && pos <= |prec| && lo <= pos && Below(rhs, pos)
    requires InOrder(rhs) == Range(lo, pos) && WellNested(prec, rhs)
    requires opPrec > 0
    requires rhs.Leaf? || prec[rhs.op] > opPrec
    requires rhs.Leaf? || pos == |prec| || prec[pos] <= prec[rhs.op]
    ensures Inner(prec, rhs, opPrec, pos).Ok?
    ensures var (s, q) := Inner(prec, rhs, opPrec, pos).value;
      q % 2 == 1 && lo <= q && InOrder(s) == Range(lo, q) && WellNested(prec, s) &&
      (s.Leaf? || prec[s.op] > opPrec) &&
      (q == |prec| || prec[q] <= opPrec)
    decreases |prec| - pos, 1
  {
    if pos < |prec| && prec[pos] > 0 && prec[pos] > opPrec {
      OuterCorrect(prec, rhs, prec[pos], pos, lo);
      var (s, q) := Outer(prec, rhs, prec[pos], pos).value;
      InnerCorrect(prec, s, opPrec, q, lo);
    }
  }

  /** On a well-formed run the climber consumes every item, keeps them in
      order, and builds the tree the precedence table prescribes. */
  lemma {:induction false} ClimbCorrect(prec: seq<nat>)
    requires Alternating(prec)
    ensures Climb(prec).Ok?
    ensures var (s, q) := Climb(prec).value;
      q == |prec| && InOrder(s) == Range(0, |prec|) && WellNested(prec, s)
  {
    assert InOrder(Leaf(0)) == Range(0, 1);
    OuterCorrect(prec, Leaf(0), 0, 1, 0);
  }

  // ---------------------------------------------------------------------
  // The prescribed tree is unique
  // ---------------------------------------------------------------------

  lemma {:induction false} OpsAbove(prec: seq<nat>, s: Shape)
    requires WellNested(prec, s) && s.Node?
    ensures forall i :: i in InOrder(s) ==> i < |prec| && (prec[i] > 0 ==> prec[i] >= prec[s.op])
  {
    var l, o, r := s.left, s.op, s.right;
    if l.Node? { OpsAbove(prec, l); }
    if r.Node? { OpsAbove(prec, r); }
  }

  /** The root of a prescribed tree is the rightmost loosest-binding operator
      of its range. */
  lemma {:induction false} RootIsRightmostLoosest(prec: seq<nat>, s: Shape, lo: nat, hi: nat)
    requires lo <= hi && WellNested(prec, s) && s.Node? && InOrder(s) == Range(lo, hi)
    ensures lo <= s.op < hi <= |prec|
    ensures forall i :: lo <= i < hi && prec[i] > 0 ==> prec[i] >= prec[s.op]
    ensures forall i :: s.op < i < hi && prec[i] > 0 ==> prec[i] > prec[s.op]
  {
    OpsAbove(prec, s);
    assert hi - 1 in InOrder(s);
    assert s.op in InOrder(s);
    if s.right.Node? { OpsAbove(prec, s.right); }
    var k := |InOrder(s.left)|;
    assert InOrder(s)[k] == s.op;
    forall i | s.op < i < hi
      ensures i in InOrder(s.right)
    {
      assert InOrder(s)[i - lo] == i;
      assert InOrder(s)[i - lo] == InOrder(s.right)[i - lo - k - 1];
    }
  }

  lemma {:induction false} SplitRange(s: Shape, lo: nat, hi: nat)
    requires lo <= hi && s.Node? && InOrder(s) == Range(lo, hi)
    ensures lo <= s.op < hi
    ensures InOrder(s.left) == Range(lo, s.op)
    ensures InOrder(s.right) == Range(s.op + 1, hi)
  {
    var k := |InOrder(s.left)|;
    assert InOrder(s)[k] == s.op;
    assert InOrder(s.left) == InOrder(s)[..k];
    assert InOrder(s.right) == InOrder(s)[k + 1..];
  }

  /** Two prescribed trees over the same range are the same tree. */
  lemma {:induction false} NestedUnique(prec: seq<nat>, s1: Shape, s2: Shape, lo: nat, hi: nat)
    requires lo <= hi
    requires WellNested(prec, s1) && WellNested(prec, s2)
    requires InOrder(s1) == Range(lo, hi) && InOrder(s2) == Range(lo, hi)
    ensures s1 == s2
    decreases s1
  {
    if s1.Leaf? || s2.Leaf? {
      assert InOrder(s1)[0] == InOrder(s2)[0];
    } else {
      RootIsRightmostLoosest(prec, s1, lo, hi);
      RootIsRightmostLoosest(prec, s2, lo, hi);
      assert s1.op == s2.op;
      SplitRange(s1, lo, hi);
      SplitRange(s2, lo, hi);
      NestedUnique(prec, s1.left, s2.left, lo, s1.op);
      NestedUnique(prec, s1.right, s2.right, s1.op + 1, hi);
    }
  }

  /** The climber's tree is the only tree the precedence table allows. */
  lemma {:induction false} ClimbUnique(prec: seq<nat>, s: Shape)
    requires Alternating(prec)
    requires WellNested(prec, s) && InOrder(s) == Range(0, |prec|)
    ensures Climb(prec) == Ok((s, |prec|))
  {
    ClimbCorrect(prec);
    NestedUnique(prec, Climb(prec).value.0, s, 0, |prec|);
  }

  /** The root of the climber's tree is the rightmost loosest operator: the
      operators bind according to the table. */
  lemma {:induction false} ClimbRoot(prec: seq<nat>)
    requires Alternating(prec) && |prec| >= 3
    ensures Climb(prec).Ok? && Climb(prec).value.0.Node?
    ensures var o := Climb(prec).value.0.op;
      o < |prec| && prec[o] > 0 &&
      (forall i :: 0 <= i < |prec| && prec[i] > 0 ==> prec[i] >= prec[o]) &&
      (forall i :: o < i < |prec| && prec[i] > 0 ==> prec[i] > prec[o])
  {
    ClimbCorrect(prec);
    var s := Climb(prec).value.0;
    assert s.Leaf? ==> |InOrder(s)| == 1;
    RootIsRightmostLoosest(prec, s, 0, |prec|);
  }

  lemma {:induction false} SamePrecedenceLeftComb(prec: seq<nat>, s: Shape, k: nat)
    requires WellNested(prec, s)
    requires forall i :: 0 <= i < |prec| && prec[i] > 0 ==> prec[i] == k
    ensures LeftComb(s)
  {
    if s.Node? {
      SamePrecedenceLeftComb(prec, s.left, k);
    }
  }

  /** Operators of one precedence nest to the left. */
  lemma {:induction false} EqualPrecedenceNestsLeft(prec: seq<nat>, k: nat)
    requires Alternating(prec)
    requires forall i :: 0 <= i < |prec| && prec[i] > 0 ==> prec[i] == k
    ensures Climb(prec).Ok? && LeftComb(Climb(prec).value.0)
  {
    ClimbCorrect(prec);
    SamePrecedenceLeftComb(prec, Climb(prec).value.0, k);
  }

  /** `a op b`: one operator between its two operands. */
  lemma {:induction false} OneOperator(prec: seq<nat>)
    requires |prec| == 3 && prec[0] == 0 && prec[1] > 0 && prec[2] == 0
    ensures Climb(prec) == Ok((Node(Leaf(0), 1, Leaf(2)), 3))
  {
    assert Alternating(prec);
    assert WellNested(prec, Leaf(0)) && WellNested(prec, Leaf(2));
    assert Range(0, 3) == [0, 1, 2];
    ClimbUnique(prec, Node(Leaf(0), 1, Leaf(2)));
  }

  /** `a op1 b op2 c`: the second operator nests under the first exactly
      when it binds strictly tighter; otherwise the first groups left. */
  lemma {:induction false} TwoOperators(prec: seq<nat>, shape: Shape)
    requires |prec| == 5 && prec[0] == 0 && prec[1] > 0 && prec[2] == 0 && prec[3] > 0 && prec[4] == 0
    requires shape == if prec[3] > prec[1]
      then Node(Leaf(0), 1, Node(Leaf(2), 3, Leaf(4)))
      else Node(Node(Leaf(0), 1, Leaf(2)), 3, Leaf(4))
    ensures Climb(prec) == Ok((shape, 5))
  {
    assert Alternating(prec);
    assert WellNested(prec, Leaf(0)) && WellNested(prec, Leaf(2)) && WellNested(prec, Leaf(4));
    if prec[3] > prec[1] {
      assert WellNested(prec, Node(Leaf(2), 3, Leaf(4)));
    } else {
      assert WellNested(prec, Node(Leaf(0), 1, Leaf(2)));
    }
    assert Range(0, 5) == [0, 1, 2, 3, 4];
    ClimbUnique(prec, shape);
  }
}

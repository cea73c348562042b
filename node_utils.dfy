/** The Python-side AST walkers of `hephaestus/utils.py` over the dict/list
    tree the Rust parser hands to Python: every node is a `dict` whose
    `"_type"` entry names its kind, lists hold child nodes, and leaves are
    strings, numbers, booleans or `None`. */
module NodeUtils {
  import opened Wrappers

  /** A Python value as the walkers see it. A dict keeps its entries in
      insertion order. */
  datatype Value =
    | Dict(entries: seq<(string, Value)>)
    | List(items: seq<Value>)
    | Str(s: string)
    | Num(n: int)
    | Bool(b: bool)
    | Null

  /** Number of values in a tree; the worklists shrink in it. */
  function Size(v: Value): (r: nat)
    ensures r >= 1
    decreases v, 1
  {
    match v
    case Dict(entries) => 1 + SizeFrom(v, 0)
    case List(items) => 1 + SizeAll(items)
    case _ => 1
  }

  /** The sizes of a dict's values from the `k`-th entry on. */
  function SizeFrom(d: Value, k: nat): nat
    requires d.Dict? && k <= |d.entries|
    decreases d, 0, |d.entries| - k
  {
    if k == |d.entries| then 0
    else
      assert d.entries[k] in d.entries;
      Size(d.entries[k].1) + SizeFrom(d, k + 1)
  }

  function SizeAll(vs: seq<Value>): nat
    decreases vs, 0
  {
    if vs == [] then 0 else Size(vs[0]) + SizeAll(vs[1..])
  }

  /** The values of a dict's entries, in order. */
  function Values(entries: seq<(string, Value)>): (r: seq<Value>)
    ensures |r| == |entries| && forall i :: 0 <= i < |r| ==> r[i] == entries[i].1
  {
    if entries == [] then [] else [entries[0].1] + Values(entries[1..])
  }

  lemma {:induction false} SizeFromValues(d: Value, k: nat)
    requires d.Dict? && k <= |d.entries|
    ensures SizeFrom(d, k) == SizeAll(Values(d.entries[k..]))
    decreases |d.entries| - k
  {
    if k < |d.entries| {
      SizeFromValues(d, k + 1);
      assert d.entries[k..][1..] == d.entries[k + 1..];
      assert Values(d.entries[k..])[1..] == Values(d.entries[k + 1..]);
    }
  }

  lemma {:induction false} SizeAllAppend(a: seq<Value>, b: seq<Value>)
    ensures SizeAll(a + b) == SizeAll(a) + SizeAll(b)
  {
    if a == [] {
      assert a + b == b;
    } else {
      assert (a + b)[1..] == a[1..] + b;
      SizeAllAppend(a[1..], b);
    }
  }

  /** `k.startswith("_")` */
  predicate Hidden(k: string) {
    |k| > 0 && k[0] == '_'
  }

  /** The values of the entries whose key does not start with `_`, in
      order. */
  function Visible(entries: seq<(string, Value)>): seq<Value>
  {
    if entries == [] then []
    else if Hidden(entries[0].0) then Visible(entries[1..])
    else [entries[0].1] + Visible(entries[1..])
  }

  lemma {:induction false} VisibleSmaller(entries: seq<(string, Value)>)
    ensures SizeAll(Visible(entries)) <= SizeAll(Values(entries))
  {
    if entries != [] {
      VisibleSmaller(entries[1..]);
      assert Values(entries) == [entries[0].1] + Values(entries[1..]);
      if !Hidden(entries[0].0) {
        assert ([entries[0].1] + Visible(entries[1..]))[1..] == Visible(entries[1..]);
      }
    }
  }

  /** A value is expanded from a dict exactly when some entry with a visible
      key holds it. */
  lemma {:induction false} VisibleMembers(entries: seq<(string, Value)>, x: Value)
    ensures x in Visible(entries) <==>
      exists i :: 0 <= i < |entries| && !Hidden(entries[i].0) && entries[i].1 == x
  {
    if entries != [] {
      VisibleMembers(entries[1..], x);
      if exists i :: 0 <= i < |entries| && !Hidden(entries[i].0) && entries[i].1 == x {
        var i :| 0 <= i < |entries| && !Hidden(entries[i].0) && entries[i].1 == x;
        if i > 0 {
          assert entries[1..][i - 1] == entries[i];
        }
      }
      if x in Visible(entries[1..]) {
        var j :| 0 <= j < |entries[1..]| && !Hidden(entries[1..][j].0) && entries[1..][j].1 == x;
        assert entries[j + 1] == entries[1..][j];
      }
    }
  }

  /** What `iter_node_attributes` appends to its worklist after taking `v`:
      a list's items, a dict's visible values, nothing for a scalar. */
  function Expand(v: Value): seq<Value>
  {
    match v
    case List(items) => items
    case Dict(entries) => Visible(entries)
    case _ => []
  }

  lemma {:induction false} ExpandShrinks(v: Value)
    ensures SizeAll(Expand(v)) < Size(v)
  {
    if v.Dict? {
      VisibleSmaller(v.entries);
      SizeFromValues(v, 0);
      assert v.entries[0..] == v.entries;
    }
  }

  /** The nodes the worklist loop yields from `work` onwards: each dict when
      it is taken, in first-in first-out order. */
  function Attrs(work: seq<Value>): (r: seq<Value>)
    decreases SizeAll(work)
  {
    if work == [] then []
    else
      SizeAllAppend(work[1..], Expand(work[0]));
      ExpandShrinks(work[0]);
      (if work[0].Dict? then [work[0]] else []) + Attrs(work[1..] + Expand(work[0]))
  }

  /** `iter_node_attributes`: the worklist grows while it is consumed. */
  method IterNodeAttributes(root: Value) returns (out: seq<Value>)
    ensures out == Attrs([root])
  {
    var nodes := [root];
    var i := 0;
    out := [];
    while i < |nodes|
      invariant 0 <= i <= |nodes|
      invariant out + Attrs(nodes[i..]) == Attrs([root])
      decreases SizeAll(nodes[i..])
    {
      var node := nodes[i];
      var yielded := if node.Dict? then [node] else [];
      var children := Expand(node);
      Step(nodes, i, yielded, children);
      out := out + yielded;
      nodes := nodes + children;
      i := i + 1;
    }
  }

  /** One turn of the loop: the worklist after the taken node shrinks, and
      the yielded run is the taken node then the run of the new worklist. */
  lemma {:induction false} Step(nodes: seq<Value>, i: nat, yielded: seq<Value>, children: seq<Value>)
    requires i < |nodes| && children == Expand(nodes[i])
    requires yielded == if nodes[i].Dict? then [nodes[i]] else []
    ensures SizeAll((nodes + children)[i + 1..]) < SizeAll(nodes[i..])
    ensures Attrs(nodes[i..]) == yielded + Attrs((nodes + children)[i + 1..])
  {
    assert (nodes + children)[i + 1..] == nodes[i..][1..] + children;
    SizeAllAppend(nodes[i..][1..], children);
    ExpandShrinks(nodes[i]);
  }

  // ---------------------------------------------------------------------
  // Which nodes are yielded
  // ---------------------------------------------------------------------

  /** Every dict reachable from `v` through lists and visible entries, `v`
      itself included, in depth-first order. */
  function DictsOf(v: Value): seq<Value>
    decreases Size(v), 0
  {
    ExpandShrinks(v);
    (if v.Dict? then [v] else []) + DictsIn(Expand(v))
  }

  function DictsIn(vs: seq<Value>): seq<Value>
    decreases SizeAll(vs), 1
  {
    if vs == [] then []
    else
      assert Size(vs[0]) <= SizeAll(vs);
      DictsOf(vs[0]) + DictsIn(vs[1..])
  }

  lemma {:induction false} DictsInAppend(a: seq<Value>, b: seq<Value>)
    ensures DictsIn(a + b) == DictsIn(a) + DictsIn(b)
  {
    if a == [] {
      assert a + b == b;
    } else {
      assert (a + b)[0] == a[0];
      assert (a + b)[1..] == a[1..] + b;
      DictsInAppend(a[1..], b);
    }
  }

  /** Only dicts are yielded. */
  lemma {:induction false} AttrsAreDicts(work: seq<Value>)
    ensures forall i :: 0 <= i < |Attrs(work)| ==> Attrs(work)[i].Dict?
    decreases SizeAll(work)
  {
    if work != [] {
      SizeAllAppend(work[1..], Expand(work[0]));
      ExpandShrinks(work[0]);
      AttrsAreDicts(work[1..] + Expand(work[0]));
    }
  }

  /** The worklist yields each reachable dict exactly as often as it is
      reachable: lists are expanded but not yielded, scalars neither. Only
      the order differs from a depth-first walk. */
  lemma {:induction false} AttrsAreReachableDicts(work: seq<Value>)
    ensures multiset(Attrs(work)) == multiset(DictsIn(work))
    decreases SizeAll(work)
  {
    if work != [] {
      var v := work[0];
      SizeAllAppend(work[1..], Expand(v));
      ExpandShrinks(v);
      AttrsAreReachableDicts(work[1..] + Expand(v));
      DictsInAppend(work[1..], Expand(v));
    }
  }

  /** Changing what sits under a key that starts with `_` changes nothing
      after the root itself. */
  lemma {:induction false} HiddenNotExpanded(before: seq<(string, Value)>, k: string, x: Value, y: Value,
                          after: seq<(string, Value)>)
    requires Hidden(k)
    ensures Attrs([Dict(before + [(k, x)] + after)])[1..] ==
            Attrs([Dict(before + [(k, y)] + after)])[1..]
  {
    VisibleSkipsHidden(before, k, x, after);
    VisibleSkipsHidden(before, k, y, after);
    var dx := Dict(before + [(k, x)] + after);
    var dy := Dict(before + [(k, y)] + after);
    assert [dx][1..] == [] && [dy][1..] == [];
    assert [dx][1..] + Expand(dx) == [dy][1..] + Expand(dy);
  }

  lemma {:induction false} VisibleSkipsHidden(before: seq<(string, Value)>, k: string, x: Value,
                                              after: seq<(string, Value)>)
    requires Hidden(k)
    ensures Visible(before + [(k, x)] + after) == Visible(before) + Visible(after)
  {
    if before == [] {
      assert before + [(k, x)] + after == [(k, x)] + after;
      assert ([(k, x)] + after)[1..] == after;
    } else {
      var all := before + [(k, x)] + after;
      assert all[0] == before[0];
      assert all[1..] == before[1..] + [(k, x)] + after;
      VisibleSkipsHidden(before[1..], k, x, after);
    }
  }

  // ---------------------------------------------------------------------
  // iter_tables and iter_ctes
  // ---------------------------------------------------------------------

  /** `d[key]` on a dict: the value of the first entry with that key, or
      `None` for a `KeyError`. */
  function Get(entries: seq<(string, Value)>, key: string): Option<Value>
  {
    if entries == [] then None
    else if entries[0].0 == key then Some(entries[0].1)
    else Get(entries[1..], key)
  }

  /** The lookup finds a value exactly when some entry has the key, and
      what it finds is held under that key. */
  lemma {:induction false} GetFinds(entries: seq<(string, Value)>, key: string)
    ensures Get(entries, key).Some? <==> exists i :: 0 <= i < |entries| && entries[i].0 == key
    ensures Get(entries, key).Some? ==>
      exists i :: 0 <= i < |entries| && entries[i] == (key, Get(entries, key).value)
  {
    if entries != [] && entries[0].0 != key {
      GetFinds(entries[1..], key);
      if exists i :: 1 <= i < |entries| && entries[i].0 == key {
        var i :| 1 <= i < |entries| && entries[i].0 == key;
        assert entries[1..][i - 1] == entries[i];
      }
      if Get(entries, key).Some? {
        var j :| 0 <= j < |entries[1..]| && entries[1..][j] == (key, Get(entries, key).value);
        assert entries[j + 1] == entries[1..][j];
      }
    }
  }

  /** `node["_type"] == name`: a missing `_type` raises, a `_type` that is
      not that string compares unequal, and subscripting anything but a dict
      with a string raises too. */
  function HasType(node: Value, name: string): (r: Outcome<bool>)
    ensures r.Panic? <==> !node.Dict? || Get(node.entries, "_type").None?
    ensures r == Ok(true) <==> node.Dict? && Get(node.entries, "_type") == Some(Str(name))
  {
    if !node.Dict? then Panic
    else
      match Get(node.entries, "_type")
      case None => Panic
      case Some(t) => Ok(t == Str(name))
  }

  /** `for name in v`: a list gives its items, a dict its keys, a string its
      characters; anything else raises. */
  function Iterate(v: Value): (r: Outcome<seq<Value>>)
    ensures v.List? ==> r == Ok(v.items)
    ensures r.Panic? <==> !(v.List? || v.Dict? || v.Str?)
  {
    match v
    case List(items) => Ok(items)
    case Dict(entries) => Ok(seq(|entries|, i requires 0 <= i < |entries| => Str(entries[i].0)))
    case Str(s) => Ok(seq(|s|, i requires 0 <= i < |s| => Str([s[i]])))
    case _ => Panic
  }

  /** The items already yielded, followed by what the rest yields. */
  function Prepend(done: seq<Value>, rest: Outcome<seq<Value>>): Outcome<seq<Value>>
  {
    match rest
    case Ok(v) => Ok(done + v)
    case Panic => Panic
  }

  lemma {:induction false} PrependNothing(o: Outcome<seq<Value>>)
    ensures Prepend([], o) == o
  {
    if o.Ok? {
      assert [] + o.value == o.value;
    }
  }

  /** A generator that loops over `iter_node_attributes` and yields `each`
      node's items in turn; the first node that raises ends the run. */
  function Gather(nodes: seq<Value>, each: Value -> Outcome<seq<Value>>): Outcome<seq<Value>>
  {
    if nodes == [] then Ok([])
    else
      var here :- each(nodes[0]);
      var rest :- Gather(nodes[1..], each);
      Ok(here + rest)
  }

  /** One turn of the generator's loop. */
  lemma {:induction false} GatherStep(nodes: seq<Value>, i: nat, done: seq<Value>, each: Value -> Outcome<seq<Value>>)
    requires i < |nodes|
    ensures each(nodes[i]).Panic? ==> Prepend(done, Gather(nodes[i..], each)) == Panic
    ensures each(nodes[i]).Ok? ==>
      Prepend(done, Gather(nodes[i..], each)) == Prepend(done + each(nodes[i]).value, Gather(nodes[i + 1..], each))
  {
    assert nodes[i..][0] == nodes[i] && nodes[i..][1..] == nodes[i + 1..];
    var here := each(nodes[i]);
    var rest := Gather(nodes[i + 1..], each);
    if here.Ok? && rest.Ok? {
      assert Gather(nodes[i..], each) == Ok(here.value + rest.value);
      assert done + (here.value + rest.value) == (done + here.value) + rest.value;
    }
  }

  /** Splitting the run of nodes splits what is yielded; a raise in the first
      part ends the run before the second part is reached. */
  lemma {:induction false} GatherAppend(a: seq<Value>, b: seq<Value>, each: Value -> Outcome<seq<Value>>)
    ensures Gather(a + b, each) == (var x :- Gather(a, each); Prepend(x, Gather(b, each)))
  {
    if a == [] {
      assert a + b == b;
      PrependNothing(Gather(b, each));
    } else {
      assert (a + b)[0] == a[0] && (a + b)[1..] == a[1..] + b;
      GatherAppend(a[1..], b, each);
      var here := each(a[0]);
      var x := Gather(a[1..], each);
      var y := Gather(b, each);
      if here.Ok? && x.Ok? && y.Ok? {
        assert here.value + (x.value + y.value) == (here.value + x.value) + y.value;
      }
    }
  }

  /** The run raises exactly when one of its nodes does. */
  lemma {:induction false} GatherPanics(nodes: seq<Value>, each: Value -> Outcome<seq<Value>>)
    ensures Gather(nodes, each).Panic? <==> exists i :: 0 <= i < |nodes| && each(nodes[i]).Panic?
  {
    if nodes != [] {
      GatherPanics(nodes[1..], each);
      if exists i :: 1 <= i < |nodes| && each(nodes[i]).Panic? {
        var i :| 1 <= i < |nodes| && each(nodes[i]).Panic?;
        assert nodes[1..][i - 1] == nodes[i];
      }
      if exists j :: 0 <= j < |nodes[1..]| && each(nodes[1..][j]).Panic? {
        var j :| 0 <= j < |nodes[1..]| && each(nodes[1..][j]).Panic?;
        assert nodes[j + 1] == nodes[1..][j];
      }
    }
  }

  /** A run none of whose nodes yields anything yields nothing. */
  lemma {:induction false} GatherNothing(nodes: seq<Value>, each: Value -> Outcome<seq<Value>>)
    requires forall i :: 0 <= i < |nodes| ==> each(nodes[i]) == Ok([])
    ensures Gather(nodes, each) == Ok([])
  {
    if nodes != [] {
      assert forall i :: 0 <= i < |nodes[1..]| ==> nodes[1..][i] == nodes[i + 1];
      GatherNothing(nodes[1..], each);
      assert each(nodes[0]) == Ok([]);
      var none: seq<Value> := [];
      assert none + none == none;
    }
  }

  /** What `iter_tables` yields for one node: the parts of its `name` when
      it is a `NamedTableExpression`, nothing for any other node. */
  function TableNames(node: Value): Outcome<seq<Value>>
  {
    var isTable :- HasType(node, "NamedTableExpression");
    if !isTable then Ok([])
    else match Get(node.entries, "name")
      case None => Panic
      case Some(name) => Iterate(name)
  }

  /** `iter_tables`. */
  method IterTables(root: Value) returns (r: Outcome<seq<Value>>)
    ensures r == Gather(Attrs([root]), TableNames)
  {
    var nodes := IterNodeAttributes(root);
    var names: seq<Value> := [];
    var i := 0;
    PrependNothing(Gather(nodes, TableNames));
    assert nodes[0..] == nodes;
    while i < |nodes|
      invariant 0 <= i <= |nodes|
      invariant Gather(nodes, TableNames) == Prepend(names, Gather(nodes[i..], TableNames))
    {
      var here := TableNames(nodes[i]);
      GatherStep(nodes, i, names, TableNames);
      if here.Panic? {
        return Panic;
      }
      names := names + here.value;
      i := i + 1;
    }
    assert nodes[i..] == [] && names + [] == names;
    return Ok(names);
  }

  /** What `iter_ctes` yields for one node: the `identifier` of a
      `CommonTableExpression`, nothing for any other node. */
  function CteName(node: Value): Outcome<seq<Value>>
  {
    var isCte :- HasType(node, "CommonTableExpression");
    if !isCte then Ok([])
    else match Get(node.entries, "identifier")
      case None => Panic
      case Some(id) => Ok([id])
  }

  /** A node yields a table's name parts when it is a table whose `name`
      can be iterated, nothing when it is another kind of node, and raises
      otherwise; it yields the one identifier of a CTE. */
  lemma {:induction false} PerNodeYields(node: Value)
    ensures HasType(node, "NamedTableExpression") == Ok(false) ==> TableNames(node) == Ok([])
    ensures HasType(node, "NamedTableExpression").Panic? ==> TableNames(node).Panic?
    ensures HasType(node, "NamedTableExpression") == Ok(true) ==>
      (TableNames(node).Ok? <==>
        Get(node.entries, "name").Some? && Iterate(Get(node.entries, "name").value).Ok?)
    ensures CteName(node).Ok? ==> |CteName(node).value| <= 1
    ensures (CteName(node).Ok? && |CteName(node).value| == 1) <==>
      (HasType(node, "CommonTableExpression") == Ok(true) && Get(node.entries, "identifier").Some?)
    ensures CteName(node).Ok? && |CteName(node).value| == 1 ==>
      CteName(node).value[0] == Get(node.entries, "identifier").value
  {
  }

  /** `iter_ctes`. */
  method IterCtes(root: Value) returns (r: Outcome<seq<Value>>)
    ensures r == Gather(Attrs([root]), CteName)
  {
    var nodes := IterNodeAttributes(root);
    var ids: seq<Value> := [];
    var i := 0;
    PrependNothing(Gather(nodes, CteName));
    assert nodes[0..] == nodes;
    while i < |nodes|
      invariant 0 <= i <= |nodes|
      invariant Gather(nodes, CteName) == Prepend(ids, Gather(nodes[i..], CteName))
    {
      var here := CteName(nodes[i]);
      GatherStep(nodes, i, ids, CteName);
      if here.Panic? {
        return Panic;
      }
      ids := ids + here.value;
      i := i + 1;
    }
    assert nodes[i..] == [] && ids + [] == ids;
    return Ok(ids);
  }

  // ---------------------------------------------------------------------
  // Examples
  // ---------------------------------------------------------------------

  lemma {:induction false} OneNode(node: Value, each: Value -> Outcome<seq<Value>>)
    ensures Gather([node], each) == each(node)
  {
    assert [node][0] == node && [node][1..] == [];
    if each(node).Ok? {
      assert each(node).value + [] == each(node).value;
    }
  }

  /** A table's `name` list yields its parts. */
  lemma {:induction false} TableNameParts(node: Value)
    requires node == Dict([("_type", Str("NamedTableExpression")), ("name", List([Str("dual")]))])
    ensures Gather([node], TableNames) == Ok([Str("dual")])
  {
    assert Get(node.entries, "_type") == Some(Str("NamedTableExpression"));
    assert Get(node.entries, "name") == Some(List([Str("dual")]));
    assert TableNames(node) == Ok([Str("dual")]);
    OneNode(node, TableNames);
  }

  /** Were a table's `name` a bare string, iterating it would yield its
      characters one by one. */
  lemma {:induction false} TableNameCharacters(node: Value)
    requires node == Dict([("_type", Str("NamedTableExpression")), ("name", Str("ab"))])
    ensures Gather([node], TableNames) == Ok([Str("a"), Str("b")])
  {
    assert Get(node.entries, "_type") == Some(Str("NamedTableExpression"));
    assert Get(node.entries, "name") == Some(Str("ab"));
    var parts := Iterate(Str("ab")).value;
    assert |parts| == 2 && parts[0] == Str(["ab"[0]]) && parts[1] == Str(["ab"[1]]);
    assert ["ab"[0]] == "a" && ["ab"[1]] == "b";
    assert parts == [Str("a"), Str("b")];
    assert TableNames(node) == Ok([Str("a"), Str("b")]);
    OneNode(node, TableNames);
  }

  /** Taking a dict from the front of the worklist yields it and queues its
      visible values. */
  lemma {:induction false} TakeDict(work: seq<Value>, kids: seq<Value>)
    requires work != [] && work[0].Dict? && Expand(work[0]) == kids
    ensures Attrs(work) == [work[0]] + Attrs(work[1..] + kids)
  {
  }

  /** Taking a list yields nothing and queues its items; taking a scalar
      yields and queues nothing. */
  lemma {:induction false} TakeOther(work: seq<Value>, kids: seq<Value>)
    requires work != [] && !work[0].Dict? && Expand(work[0]) == kids
    ensures Attrs(work) == Attrs(work[1..] + kids)
  {
    assert [] + Attrs(work[1..] + kids) == Attrs(work[1..] + kids);
  }

  /** A dict whose first key is hidden and whose other keys are not queues
      all its values but the first. */
  lemma {:induction false} VisibleAfterFirst(entries: seq<(string, Value)>)
    requires |entries| >= 1 && Hidden(entries[0].0)
    requires forall i :: 1 <= i < |entries| ==> !Hidden(entries[i].0)
    ensures Visible(entries) == Values(entries[1..])
  {
    AllVisible(entries[1..]);
  }

  lemma {:induction false} AllVisible(entries: seq<(string, Value)>)
    requires forall i :: 0 <= i < |entries| ==> !Hidden(entries[i].0)
    ensures Visible(entries) == Values(entries)
  {
    if entries != [] {
      AllVisible(entries[1..]);
      assert Values(entries) == [entries[0].1] + Values(entries[1..]);
    }
  }

  /** The dict tree of `SELECT 1`, each node a parameter fixed by the
      precondition: its nodes come out in breadth-first order. */
  lemma {:induction false} SelectOneOrder(ss: Value, qse: Value, all: Value, lrc: Value, erc: Value, lit: Value)
    requires lit == Dict([("_type", Str("NumericLiteral")), ("num", Str("1"))])
    requires erc == Dict([("_type", Str("ExprResultColumn")), ("expr", lit), ("rename", Null)])
    requires lrc == Dict([("_type", Str("ListResultColumn")), ("values", List([erc]))])
    requires all == Dict([("_type", Str("SelectAll"))])
    requires qse == Dict([("_type", Str("QuerySetExpression")), ("mode", all), ("columns", lrc),
                          ("from", List([])), ("where_expr", Null), ("group_by", Null)])
    requires ss == Dict([("_type", Str("SelectStatement")), ("common", List([])), ("expr", qse),
                         ("order_by", List([])), ("limit", Null)])
    ensures Attrs([ss]) == [ss, qse, all, lrc, erc, lit]
  {
    ExpandSelect(ss, qse);
    ExpandQuery(qse, all, lrc);
    ExpandRest(all, lrc, erc, lit);
    SelectOneHead(ss, qse, all, lrc, List([]));
    SelectOneMiddle(all, lrc, erc, List([]));
    SelectOneTail(erc, lit);
  }

  lemma {:induction false} SelectOneHead(ss: Value, qse: Value, all: Value, lrc: Value, none: Value)
    requires ss.Dict? && qse.Dict? && none == List([])
    requires Expand(ss) == [none, qse, none, Null]
    requires Expand(qse) == [all, lrc, none, Null, Null]
    ensures Attrs([ss]) == [ss, qse] + Attrs([all, lrc, none, Null, Null])
  {
    SelectOneStatement(ss, qse, none);
    SelectOneQuery(qse, all, lrc, none);
  }

  lemma {:induction false} SelectOneStatement(ss: Value, qse: Value, none: Value)
    requires ss.Dict? && none == List([])
    requires Expand(ss) == [none, qse, none, Null]
    ensures Attrs([ss]) == [ss] + Attrs([qse, none, Null])
  {
    TakeDict([ss], [none, qse, none, Null]);
    assert [ss][1..] + [none, qse, none, Null] == [none, qse, none, Null];
    TakeOther([none, qse, none, Null], []);
    assert [none, qse, none, Null][1..] + [] == [qse, none, Null];
  }

  lemma {:induction false} SelectOneQuery(qse: Value, all: Value, lrc: Value, none: Value)
    requires qse.Dict? && none == List([])
    requires Expand(qse) == [all, lrc, none, Null, Null]
    ensures Attrs([qse, none, Null]) == [qse] + Attrs([all, lrc, none, Null, Null])
  {
    TakeDict([qse, none, Null], [all, lrc, none, Null, Null]);
    assert [qse, none, Null][1..] + [all, lrc, none, Null, Null] == [none, Null, all, lrc, none, Null, Null];
    TakeScalarsAndEmpty(none, [all, lrc, none, Null, Null]);
  }

  lemma {:induction false} TakeScalarsAndEmpty(none: Value, rest: seq<Value>)
    requires none == List([])
    ensures Attrs([none, Null] + rest) == Attrs(rest)
  {
    TakeOther([none, Null] + rest, []);
    assert ([none, Null] + rest)[1..] + [] == [Null] + rest;
    TakeOther([Null] + rest, []);
    assert ([Null] + rest)[1..] + [] == rest;
  }

  lemma {:induction false} SelectOneMiddle(all: Value, lrc: Value, erc: Value, none: Value)
    requires all.Dict? && lrc.Dict? && none == List([])
    requires Expand(all) == [] && Expand(lrc) == [List([erc])]
    ensures Attrs([all, lrc, none, Null, Null]) == [all, lrc] + Attrs([List([erc])])
  {
    SelectOneMode(all, lrc, none);
    SelectOneColumns(lrc, erc, none);
  }

  lemma {:induction false} SelectOneMode(all: Value, lrc: Value, none: Value)
    requires all.Dict? && Expand(all) == []
    ensures Attrs([all, lrc, none, Null, Null]) == [all] + Attrs([lrc, none, Null, Null])
  {
    TakeDict([all, lrc, none, Null, Null], []);
    assert [all, lrc, none, Null, Null][1..] + [] == [lrc, none, Null, Null];
  }

  lemma {:induction false} SelectOneColumns(lrc: Value, erc: Value, none: Value)
    requires lrc.Dict? && none == List([]) && Expand(lrc) == [List([erc])]
    ensures Attrs([lrc, none, Null, Null]) == [lrc] + Attrs([List([erc])])
  {
    TakeDict([lrc, none, Null, Null], [List([erc])]);
    assert [lrc, none, Null, Null][1..] + [List([erc])] == [none, Null] + [Null, List([erc])];
    TakeScalarsAndEmpty(none, [Null, List([erc])]);
    TakeOther([Null, List([erc])], []);
    assert [Null, List([erc])][1..] + [] == [List([erc])];
  }

  lemma {:induction false} SelectOneTail(erc: Value, lit: Value)
    requires erc.Dict? && lit.Dict?
    requires Expand(erc) == [lit, Null] && Expand(lit) == [Str("1")]
    ensures Attrs([List([erc])]) == [erc, lit]
  {
    TakeOther([List([erc])], [erc]);
    assert [List([erc])][1..] + [erc] == [erc];
    TakeDict([erc], [lit, Null]);
    assert [erc][1..] + [lit, Null] == [lit, Null];
    TakeDict([lit, Null], [Str("1")]);
    assert [lit, Null][1..] + [Str("1")] == [Null, Str("1")];
    TakeOther([Null, Str("1")], []);
    assert [Null, Str("1")][1..] + [] == [Str("1")];
    TakeOther([Str("1")], []);
    assert [Str("1")][1..] + [] == [];
  }

  lemma {:induction false} ExpandSelect(ss: Value, qse: Value)
    requires ss == Dict([("_type", Str("SelectStatement")), ("common", List([])), ("expr", qse),
                         ("order_by", List([])), ("limit", Null)])
    ensures Expand(ss) == [List([]), qse, List([]), Null]
  {
    VisibleAfterFirst(ss.entries);
  }

  lemma {:induction false} ExpandQuery(qse: Value, all: Value, lrc: Value)
    requires qse == Dict([("_type", Str("QuerySetExpression")), ("mode", all), ("columns", lrc),
                          ("from", List([])), ("where_expr", Null), ("group_by", Null)])
    ensures Expand(qse) == [all, lrc, List([]), Null, Null]
  {
    VisibleAfterFirst(qse.entries);
  }

  lemma {:induction false} ExpandRest(all: Value, lrc: Value, erc: Value, lit: Value)
    requires lit == Dict([("_type", Str("NumericLiteral")), ("num", Str("1"))])
    requires erc == Dict([("_type", Str("ExprResultColumn")), ("expr", lit), ("rename", Null)])
    requires lrc == Dict([("_type", Str("ListResultColumn")), ("values", List([erc]))])
    requires all == Dict([("_type", Str("SelectAll"))])
    ensures Expand(all) == [] && Expand(lrc) == [List([erc])]
    ensures Expand(erc) == [lit, Null] && Expand(lit) == [Str("1")]
  {
    VisibleAfterFirst(all.entries);
    VisibleAfterFirst(lrc.entries);
    VisibleAfterFirst(erc.entries);
    VisibleAfterFirst(lit.entries);
  }
}
